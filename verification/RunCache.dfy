/** The per-project run cache: artefacts on disk, a manifest that names those
    of the last runs, and the reaper of what fell off it. */
module RunCache {
  import opened Options

  // A basename is made from the second of the run and the commit, with no
  // nonce: two runs in one second on one commit share their names.
  datatype Kind = Sarif | Html | Findings
  datatype Name = Name(kind: Kind, iso: nat, commit: string)

  // A manifest entry. `more` stands for the fields only the last run keeps.
  datatype Entry = Entry(iso: nat, commit: string, sarif: Option<Name>, html: Option<Name>, findings: Option<Name>,
      more: string)

  datatype Manifest = Manifest(lastRun: Option<Entry>, history: seq<Entry>)

  // index.json: absent, present, or not readable as version 1.
  datatype Index = Absent | Unreadable | Present(manifest: Manifest)

  datatype State = State(index: Index, files: set<Name>)

  const HISTORY_MAX: nat := 10

  // ------------------------------------------------------------ specification

  function LoadManifest(index: Index): Manifest {
    if index.Present? then index.manifest else Manifest(None, [])
  }

  function OfOption(name: Option<Name>): set<Name> {
    if name.Some? then {name.value} else {}
  }

  function NamesOf(e: Entry): set<Name> {
    OfOption(e.sarif) + OfOption(e.html) + OfOption(e.findings)
  }

  function NamesIn(entries: seq<Entry>): set<Name> {
    if entries == [] then {} else NamesOf(entries[0]) + NamesIn(entries[1..])
  }

  function Named(index: Index): set<Name> {
    var m := LoadManifest(index);
    (if m.lastRun.Some? then NamesOf(m.lastRun.value) else {}) + NamesIn(m.history)
  }

  // The compact form an entry has in the history.
  function Distil(e: Entry): Entry {
    e.(more := "")
  }

  // The history before the cap: the last run migrated to its head.
  function Migrated(prev: Manifest): seq<Entry> {
    (if prev.lastRun.Some? then [Distil(prev.lastRun.value)] else []) + prev.history
  }

  function Capped(history: seq<Entry>): seq<Entry> {
    if |history| <= HISTORY_MAX then history else history[..HISTORY_MAX]
  }

  function Dropped(history: seq<Entry>): seq<Entry> {
    if |history| <= HISTORY_MAX then [] else history[HISTORY_MAX..]
  }

  // How one write to the cache directory ends. `NotPrivate`: it was committed
  // but could not be made owner-only, so it is removed again.
  datatype Write = Written | Failed | NotPrivate

  // A completed audit with what the file system will do to it.
  datatype RunInput = RunInput(
    iso: nat, commit: string, more: string,
    sarif: Write,
    html: bool,                 // an HTML summary was written too
    merged: bool,               // there are findings for the sidecar
    sidecar: Write,
    dirOk: bool,                // the cache directory can be had
    commitOk: bool,             // index.json opens, is written whole and commits
    stuck: set<Name>)           // files the reaper cannot remove

  function EntryOf(r: RunInput): Entry {
    Entry(r.iso, r.commit, Some(Name(Sarif, r.iso, r.commit)),
          if r.html then Some(Name(Html, r.iso, r.commit)) else None,
          if r.merged && r.sidecar == Written then Some(Name(Findings, r.iso, r.commit)) else None, r.more)
  }

  function AfterWrite(files: set<Name>, name: Name, w: Write): set<Name> {
    match w
    case Written => files + {name}
    case Failed => files
    case NotPrivate => files - {name}
  }

  function AfterSidecar(files: set<Name>, r: RunInput): set<Name> {
    if r.merged then AfterWrite(files, Name(Findings, r.iso, r.commit), r.sidecar) else files
  }

  function NewManifest(index: Index, r: RunInput): Manifest {
    Manifest(Some(EntryOf(r)), Capped(Migrated(LoadManifest(index))))
  }

  // What the reaper may take: named by a dropped entry, by no kept one.
  function Reapable(index: Index, r: RunInput): set<Name> {
    NamesIn(Dropped(Migrated(LoadManifest(index)))) - Named(Present(NewManifest(index, r))) - r.stuck
  }

  function RecordStep(s: State, r: RunInput): State {
    if !r.dirOk then s
    else
      var files := AfterSidecar(s.files, r);
      if !r.commitOk then State(s.index, files)
      else State(Present(NewManifest(s.index, r)), files - Reapable(s.index, r))
  }

  // The caller writes the SARIF, then the HTML, then records the run; a SARIF
  // that is not in the cache ends it there.
  function RunStep(s: State, r: RunInput): State {
    var files := AfterWrite(s.files, Name(Sarif, r.iso, r.commit), r.sarif);
    if r.sarif != Written then State(s.index, files)
    else RecordStep(State(s.index, if r.html then files + {Name(Html, r.iso, r.commit)} else files), r)
  }

  ghost predicate Runs(trace: seq<State>, runs: seq<RunInput>) {
    && |trace| == |runs| + 1
    && forall k | 0 <= k < |runs| :: trace[k + 1] == RunStep(trace[k], runs[k])
  }

  // --------------------------------------------- named artefacts exist: exactly

  ghost predicate NamedExist(s: State) {
    Named(s.index) <= s.files
  }

  // Earlier runs' names that the manifest holds after this run.
  function StillNamed(index: Index, r: RunInput): set<Name> {
    if r.commitOk then NamesIn(Capped(Migrated(LoadManifest(index)))) else Named(index)
  }

  // A removal for lack of privacy that hits a same-second twin the manifest
  // goes on naming.
  ghost predicate RemovesTwin(s: State, r: RunInput) {
    match r.sarif
    case NotPrivate => Name(Sarif, r.iso, r.commit) in Named(s.index)
    case Failed => false
    case Written =>
      r.dirOk && r.merged && r.sidecar == NotPrivate && Name(Findings, r.iso, r.commit) in StillNamed(s.index, r)
  }

  lemma {:induction false} NamesInConcat(a: seq<Entry>, b: seq<Entry>)
    ensures NamesIn(a + b) == NamesIn(a) + NamesIn(b)
    decreases |a|
  {
    if a == [] {
      assert a + b == b;
    } else {
      assert (a + b)[1..] == a[1..] + b;
      NamesInConcat(a[1..], b);
    }
  }

  lemma NamesMigrate(prev: Manifest)
    ensures NamesIn(Migrated(prev)) == Named(Present(prev))
    ensures NamesIn(Migrated(prev)) == NamesIn(Capped(Migrated(prev))) + NamesIn(Dropped(Migrated(prev)))
  {
    var h := Migrated(prev);
    assert h == Capped(h) + Dropped(h);
    NamesInConcat(Capped(h), Dropped(h));
    if prev.lastRun.Some? {
      var e := Distil(prev.lastRun.value);
      NamesInConcat([e], prev.history);
      NamesInOne(e);
    } else {
      assert h == prev.history;
    }
  }

  lemma NamesInOne(e: Entry)
    ensures NamesIn([e]) == NamesOf(e)
  {
    assert [e][1..] == [];
  }

  // What a committed manifest names: this run's artefacts and the kept ones.
  lemma NamedByNew(index: Index, r: RunInput)
    ensures Named(Present(NewManifest(index, r)))
         == NamesOf(EntryOf(r)) + NamesIn(Capped(Migrated(LoadManifest(index))))
    ensures NamesIn(Capped(Migrated(LoadManifest(index)))) <= Named(index)
  {
    NamesMigrate(LoadManifest(index));
  }

  lemma RecordKeepsNamed(s: State, r: RunInput)
    requires NamedExist(s) && r.dirOk
    requires Name(Sarif, r.iso, r.commit) in s.files && (r.html ==> Name(Html, r.iso, r.commit) in s.files)
    ensures NamedExist(RecordStep(s, r))
       <==> !(r.merged && r.sidecar == NotPrivate && Name(Findings, r.iso, r.commit) in StillNamed(s.index, r))
  {
    NamedByNew(s.index, r);
  }

  // Every artefact the manifest names still exists after a run, whatever
  // failed in it, exactly when no such removal happened.
  lemma NamedExistAfterRun(s: State, r: RunInput)
    requires NamedExist(s)
    ensures NamedExist(RunStep(s, r)) <==> !RemovesTwin(s, r)
  {
    if r.sarif == Written && r.dirOk {
      var files := s.files + {Name(Sarif, r.iso, r.commit)};
      RecordKeepsNamed(State(s.index, if r.html then files + {Name(Html, r.iso, r.commit)} else files), r);
    }
  }

  lemma {:induction false} NamedExistAlways(trace: seq<State>, runs: seq<RunInput>)
    requires Runs(trace, runs) && NamedExist(trace[0])
    ensures (forall k | 0 <= k < |trace| :: NamedExist(trace[k]))
       <==> (forall k | 0 <= k < |runs| :: !RemovesTwin(trace[k], runs[k]))
  {
    if forall k | 0 <= k < |trace| :: NamedExist(trace[k]) {
      forall k | 0 <= k < |runs| ensures !RemovesTwin(trace[k], runs[k]) {
        assert NamedExist(trace[k]) && NamedExist(trace[k + 1]);
        NamedExistAfterRun(trace[k], runs[k]);
      }
    } else if forall k | 0 <= k < |runs| :: !RemovesTwin(trace[k], runs[k]) {
      forall k: nat | k < |trace| ensures NamedExist(trace[k]) {
        NamedExistUpto(trace, runs, k);
      }
      assert false;
    }
  }

  lemma {:induction false} NamedExistUpto(trace: seq<State>, runs: seq<RunInput>, k: nat)
    requires Runs(trace, runs) && NamedExist(trace[0]) && k < |trace|
    requires forall j | 0 <= j < |runs| :: !RemovesTwin(trace[j], runs[j])
    ensures NamedExist(trace[k])
  {
    if k > 0 {
      NamedExistUpto(trace, runs, k - 1);
      NamedExistAfterRun(trace[k - 1], runs[k - 1]);
    }
  }

  // Two runs in one second: the second one's sidecar cannot be made private,
  // and its removal takes the file the first one's entry still names.
  lemma TwinSidecarIsLost()
    ensures var good := RunInput(7, "abc", "", Written, false, true, Written, true, true, {});
            var s := RunStep(State(Absent, {}), good);
            NamedExist(s) && !NamedExist(RunStep(s, good.(sidecar := NotPrivate)))
  {
    var good := RunInput(7, "abc", "", Written, false, true, Written, true, true, {});
    var empty := State(Absent, {});
    NamedExistAfterRun(empty, good);
    var s := RunStep(empty, good);
    var e := EntryOf(good);
    assert s.index == Present(Manifest(Some(e), []));
    assert Migrated(s.index.manifest) == [Distil(e)];
    assert Name(Findings, 7, "abc") in NamesOf([Distil(e)][0]);
    NamedExistAfterRun(s, good.(sidecar := NotPrivate));
  }

  // ------------------------------------------------------------------- history

  predicate Recorded(r: RunInput) {
    r.sarif == Written && r.dirOk && r.commitOk
  }

  // The entries of the recorded runs, newest first.
  function Log(runs: seq<RunInput>): seq<Entry> {
    if runs == [] then []
    else (if Recorded(runs[|runs| - 1]) then [EntryOf(runs[|runs| - 1])] else []) + Log(runs[..|runs| - 1])
  }

  function DistilAll(entries: seq<Entry>): seq<Entry> {
    seq(|entries|, k requires 0 <= k < |entries| => Distil(entries[k]))
  }

  // The manifest a log of recorded runs must give.
  function ManifestOf(log: seq<Entry>): Index {
    if log == [] then Absent else Present(Manifest(Some(log[0]), Capped(DistilAll(log[1..]))))
  }

  // After any runs, failed ones among them, the manifest holds the last
  // recorded run and the ten before it, newest first.
  lemma {:induction false} ManifestIsTheLogsHead(trace: seq<State>, runs: seq<RunInput>, k: nat)
    requires Runs(trace, runs) && trace[0].index == Absent && k < |trace|
    ensures trace[k].index == ManifestOf(Log(runs[..k]))
    ensures trace[k].index.Present? ==> |trace[k].index.manifest.history| <= HISTORY_MAX
  {
    if k > 0 {
      ManifestIsTheLogsHead(trace, runs, k - 1);
      LogGrows(runs, k);
      ManifestStep(trace[k - 1], runs[k - 1], Log(runs[..k - 1]));
      assert trace[k - 1 + 1] == RunStep(trace[k - 1], runs[k - 1]);
    }
  }

  function Logged(r: RunInput, log: seq<Entry>): seq<Entry> {
    if Recorded(r) then [EntryOf(r)] + log else log
  }

  lemma LogGrows(runs: seq<RunInput>, k: nat)
    requires 0 < k <= |runs|
    ensures Log(runs[..k]) == Logged(runs[k - 1], Log(runs[..k - 1]))
  {
    assert runs[..k][..k - 1] == runs[..k - 1] && runs[..k][k - 1] == runs[k - 1];
  }

  lemma ManifestStep(s: State, r: RunInput, log: seq<Entry>)
    requires s.index == ManifestOf(log)
    ensures RunStep(s, r).index == ManifestOf(Logged(r, log))
    ensures ManifestOf(log).Present? ==> |ManifestOf(log).manifest.history| <= HISTORY_MAX
    ensures RunStep(s, r).index.Present? ==> |RunStep(s, r).index.manifest.history| <= HISTORY_MAX
  {
    if Recorded(r) {
      assert ([EntryOf(r)] + log)[1..] == log;
      CapOfMigrated(log);
    }
  }

  lemma CapOfMigrated(log: seq<Entry>)
    ensures Capped(Migrated(LoadManifest(ManifestOf(log)))) == Capped(DistilAll(log))
  {
    if log != [] {
      var h := DistilAll(log[1..]);
      assert Migrated(LoadManifest(ManifestOf(log))) == [Distil(log[0])] + Capped(h);
      assert DistilAll(log) == [Distil(log[0])] + h;
      assert Capped([Distil(log[0])] + Capped(h)) == Capped([Distil(log[0])] + h);
    }
  }

  ghost predicate NewestFirst(entries: seq<Entry>) {
    forall i, j | 0 <= i < j < |entries| :: entries[i].iso >= entries[j].iso
  }

  // The recorded runs, oldest first.
  function RecordedOf(runs: seq<RunInput>): seq<RunInput> {
    if runs == [] then []
    else
      var last := runs[|runs| - 1];
      RecordedOf(runs[..|runs| - 1]) + (if Recorded(last) then [last] else [])
  }

  lemma {:induction false} LogIsReversed(runs: seq<RunInput>)
    ensures |Log(runs)| == |RecordedOf(runs)|
    ensures forall i | 0 <= i < |Log(runs)| :: Log(runs)[i] == EntryOf(RecordedOf(runs)[|Log(runs)| - 1 - i])
  {
    if runs != [] {
      LogIsReversed(runs[..|runs| - 1]);
    }
  }

  // Those the manifest still holds.
  function Held(runs: seq<RunInput>): seq<RunInput> {
    var all := RecordedOf(runs);
    if |all| > HISTORY_MAX + 1 then all[|all| - HISTORY_MAX - 1..] else all
  }

  ghost predicate ClockGoesOn(runs: seq<RunInput>) {
    forall i, j | 0 <= i < j < |runs| :: runs[i].iso <= runs[j].iso
  }

  // The history reads newest first if and only if the clock did not go back
  // between the runs the manifest still holds.
  lemma HistoryIsNewestFirst(trace: seq<State>, runs: seq<RunInput>, k: nat)
    requires Runs(trace, runs) && trace[0].index == Absent && k < |trace| && trace[k].index.Present?
    ensures var m := trace[k].index.manifest;
            m.lastRun.Some? && (NewestFirst([m.lastRun.value] + m.history) <==> ClockGoesOn(Held(runs[..k])))
  {
    ManifestIsTheLogsHead(trace, runs, k);
    LogIsReversed(runs[..k]);
    var m := trace[k].index.manifest;
    var entries := [m.lastRun.value] + m.history;
    EntriesAreLogged(m, Log(runs[..k]));
    HeldIsTheEnd(entries, Log(runs[..k]), RecordedOf(runs[..k]), Held(runs[..k]));
    ReversedOrder(entries, Held(runs[..k]));
  }

  // The manifest's entries in order, with the times they were logged with.
  lemma EntriesAreLogged(m: Manifest, log: seq<Entry>)
    requires log != [] && ManifestOf(log) == Present(m)
    ensures m.lastRun.Some?
    ensures var entries := [m.lastRun.value] + m.history;
            && |entries| == (if |log| > HISTORY_MAX + 1 then HISTORY_MAX + 1 else |log|)
            && forall i | 0 <= i < |entries| :: entries[i].iso == log[i].iso
  {
    var h := DistilAll(log[1..]);
    assert forall i | 0 <= i < |h| :: h[i].iso == log[i + 1].iso;
  }

  lemma HeldIsTheEnd(entries: seq<Entry>, log: seq<Entry>, all: seq<RunInput>, held: seq<RunInput>)
    requires |log| == |all| && forall i | 0 <= i < |log| :: log[i] == EntryOf(all[|log| - 1 - i])
    requires held == if |all| > HISTORY_MAX + 1 then all[|all| - HISTORY_MAX - 1..] else all
    requires |entries| == |held| && forall i | 0 <= i < |entries| :: entries[i].iso == log[i].iso
    ensures forall i | 0 <= i < |entries| :: entries[i].iso == held[|held| - 1 - i].iso
  {
    forall i | 0 <= i < |entries| ensures entries[i].iso == held[|held| - 1 - i].iso {
      assert log[i] == EntryOf(all[|all| - 1 - i]);
    }
  }

  lemma ReversedOrder(entries: seq<Entry>, held: seq<RunInput>)
    requires |entries| == |held| && forall i | 0 <= i < |entries| :: entries[i].iso == held[|held| - 1 - i].iso
    ensures NewestFirst(entries) <==> ClockGoesOn(held)
  {
    var n := |held|;
    if NewestFirst(entries) {
      forall i, j | 0 <= i < j < n ensures held[i].iso <= held[j].iso {
        assert entries[n - 1 - j].iso >= entries[n - 1 - i].iso;
      }
    }
  }

  // ------------------------------------------------------------------ no leaks

  // Of the names given, those on disk are named.
  ghost predicate NoneLeft(s: State, names: set<Name>) {
    names * s.files <= Named(s.index)
  }

  // What a run that is not recorded leaves in the cache.
  function Unrecorded(r: RunInput): set<Name> {
    if r.sarif != Written then {}
    else
      {Name(Sarif, r.iso, r.commit)} + (if r.html then {Name(Html, r.iso, r.commit)} else {})
      + (if r.dirOk && r.merged && r.sidecar == Written then {Name(Findings, r.iso, r.commit)} else {})
  }

  // Files that fall out of the manifest and cannot be removed.
  function StuckAndDropped(s: State, r: RunInput): set<Name> {
    r.stuck * NamesIn(Dropped(Migrated(LoadManifest(s.index)))) * AfterSidecar(s.files, r)
      - Named(Present(NewManifest(s.index, r)))
  }

  // A run leaves a file behind that was recorded and is named no more: a
  // recorded run one that is stuck, any other one that it wrote over.
  ghost predicate Leaks(s: State, r: RunInput, names: set<Name>) {
    if Recorded(r) then StuckAndDropped(s, r) * names != {}
    else Unrecorded(r) * names - Named(s.index) != {}
  }

  function NowRecorded(r: RunInput, names: set<Name>): set<Name> {
    if Recorded(r) then NamesOf(EntryOf(r)) + names else names
  }

  // What a recorded run adds to the directory is named by its own entry.
  lemma RecordedFiles(s: State, r: RunInput) returns (added: set<Name>)
    requires Recorded(r)
    ensures added <= NamesOf(EntryOf(r)) && AfterSidecar(s.files, r) <= s.files + NamesOf(EntryOf(r))
    ensures RunStep(s, r) == State(Present(NewManifest(s.index, r)),
                                   AfterSidecar(s.files, r) + added - Reapable(s.index, r))
  {
    added := {Name(Sarif, r.iso, r.commit)} + (if r.html then {Name(Html, r.iso, r.commit)} else {});
  }

  // `was` is on disk before, `now` and `added` before the reaper, which leaves
  // what is kept and what is stuck.
  lemma OnlyStuckIsLeft<T>(was: set<T>, now: set<T>, added: set<T>, named: set<T>, dropped: set<T>, kept: set<T>,
      stuck: set<T>, names: set<T>, own: set<T>)
    requires names * was <= named <= dropped + kept && added <= own <= kept && now <= was + own
    ensures (own + names) * (now + added - (dropped - kept - stuck)) <= kept
       <==> (stuck * dropped * now - kept) * names == {}
  {
    var left := (own + names) * (now + added - (dropped - kept - stuck));
    var stays := (stuck * dropped * now - kept) * names;
    forall name ensures name in left && name !in kept <==> name in stays {
      if name in left && name !in kept {
        assert name in names * was;
      }
    }
    if left <= kept {
      assert stays == {};
    } else {
      var name :| name in left && name !in kept;
      assert name in stays;
    }
  }

  lemma RecordedRunLeaks(s: State, r: RunInput, names: set<Name>)
    requires Recorded(r) && NoneLeft(s, names)
    ensures NoneLeft(RunStep(s, r), NowRecorded(r, names)) <==> !Leaks(s, r, names)
  {
    var h := Migrated(LoadManifest(s.index));
    var added := RecordedFiles(s, r);
    NamesMigrate(LoadManifest(s.index));
    NamedByNew(s.index, r);
    OnlyStuckIsLeft(s.files, AfterSidecar(s.files, r), added, Named(s.index), NamesIn(Dropped(h)),
        Named(Present(NewManifest(s.index, r))), r.stuck, names, NamesOf(EntryOf(r)));
  }

  lemma OtherRunLeaks(s: State, r: RunInput, names: set<Name>)
    requires !Recorded(r) && NoneLeft(s, names)
    ensures NoneLeft(RunStep(s, r), NowRecorded(r, names)) <==> !Leaks(s, r, names)
  {
    var t := RunStep(s, r);
    assert t.index == s.index && t.files <= s.files + Unrecorded(r) && Unrecorded(r) <= t.files;
    if Leaks(s, r, names) {
      var name :| name in Unrecorded(r) * names - Named(s.index);
      assert name in names * t.files;
    } else {
      forall name | name in names * t.files ensures name in Named(t.index) {
        assert name !in Unrecorded(r) * names - Named(s.index);
        assert name in s.files ==> name in names * s.files;
      }
    }
  }

  // One run, whatever fails in it: all that was ever recorded is still named
  // or gone, if and only if the run leaks nothing.
  lemma NamedOrDeletedAfterRun(s: State, r: RunInput, names: set<Name>)
    requires NoneLeft(s, names)
    ensures NoneLeft(RunStep(s, r), NowRecorded(r, names)) <==> !Leaks(s, r, names)
  {
    if Recorded(r) {
      RecordedRunLeaks(s, r, names);
    } else {
      OtherRunLeaks(s, r, names);
    }
  }

  // What the first k runs recorded.
  function Ever(runs: seq<RunInput>, k: nat): set<Name>
    requires k <= |runs|
  {
    NamesIn(Log(runs[..k]))
  }

  lemma EverGrows(runs: seq<RunInput>, k: nat)
    requires k < |runs|
    ensures Ever(runs, k + 1) == NowRecorded(runs[k], Ever(runs, k))
  {
    LogGrows(runs, k + 1);
    if Recorded(runs[k]) {
      NamesInConcat([EntryOf(runs[k])], Log(runs[..k]));
      NamesInOne(EntryOf(runs[k]));
    }
  }

  lemma {:induction false} NoLeakUpto(trace: seq<State>, runs: seq<RunInput>, k: nat)
    requires Runs(trace, runs) && k < |trace|
    requires forall j | 0 <= j < k :: !Leaks(trace[j], runs[j], Ever(runs, j))
    ensures NoneLeft(trace[k], Ever(runs, k))
  {
    if k > 0 {
      NoLeakUpto(trace, runs, k - 1);
      EverGrows(runs, k - 1);
      NamedOrDeletedAfterRun(trace[k - 1], runs[k - 1], Ever(runs, k - 1));
      assert trace[k - 1 + 1] == RunStep(trace[k - 1], runs[k - 1]);
    }
  }

  // Over any runs: at every moment everything ever recorded is still named or
  // gone, if and only if no run leaks.
  lemma NamedOrDeletedAlways(trace: seq<State>, runs: seq<RunInput>)
    requires Runs(trace, runs)
    ensures (forall k | 0 <= k < |trace| :: NoneLeft(trace[k], Ever(runs, k)))
       <==> (forall k | 0 <= k < |runs| :: !Leaks(trace[k], runs[k], Ever(runs, k)))
  {
    if forall k | 0 <= k < |trace| :: NoneLeft(trace[k], Ever(runs, k)) {
      forall k | 0 <= k < |runs| ensures !Leaks(trace[k], runs[k], Ever(runs, k)) {
        assert NoneLeft(trace[k], Ever(runs, k)) && NoneLeft(trace[k + 1], Ever(runs, k + 1));
        EverGrows(runs, k);
        NamedOrDeletedAfterRun(trace[k], runs[k], Ever(runs, k));
      }
    }
    if forall k | 0 <= k < |runs| :: !Leaks(trace[k], runs[k], Ever(runs, k)) {
      forall k | 0 <= k < |trace| ensures NoneLeft(trace[k], Ever(runs, k)) {
        NoLeakUpto(trace, runs, k);
      }
    }
  }

  // No manifest commit failed and no removal: what the sidecar or the SARIF
  // did does not matter, and a SARIF that fell back ends the run.
  predicate Smooth(r: RunInput) {
    r.sarif == Written ==> r.dirOk && r.commitOk && r.stuck == {}
  }

  // With such runs everything the recorded ones put on disk is still named,
  // or gone.
  lemma NamedOrDeleted(trace: seq<State>, runs: seq<RunInput>, k: nat)
    requires Runs(trace, runs) && k < |trace| && forall j | 0 <= j < |runs| :: Smooth(runs[j])
    ensures NamesIn(Log(runs[..k])) * trace[k].files <= Named(trace[k].index)
  {
    forall j | 0 <= j < k ensures !Leaks(trace[j], runs[j], Ever(runs, j)) {
      assert Smooth(runs[j]);
    }
    NoLeakUpto(trace, runs, k);
  }

  // ---- a leak

  // Run k of a day: everything is written, and `stuck` cannot be removed.
  function DayRun(k: nat, stuck: set<Name>): RunInput {
    RunInput(k, "abc", "", Written, false, false, Failed, true, true, stuck)
  }

  function Play(s: State, runs: seq<RunInput>): (trace: seq<State>)
    ensures |trace| == |runs| + 1 && trace[0] == s
    ensures forall k | 0 <= k < |runs| :: trace[k + 1] == RunStep(trace[k], runs[k])
    decreases |runs|
  {
    if runs == [] then [s] else [s] + Play(RunStep(s, runs[0]), runs[1..])
  }

  lemma {:induction false} AllDaysAreLogged(runs: seq<RunInput>, n: nat)
    requires n <= |runs| && forall k | 0 <= k < n :: Recorded(runs[k])
    ensures |Log(runs[..n])| == n && forall i | 0 <= i < n :: Log(runs[..n])[i] == EntryOf(runs[n - 1 - i])
  {
    if n > 0 {
      AllDaysAreLogged(runs, n - 1);
      LogGrows(runs, n);
    }
  }

  const FIRST := Name(Sarif, 0, "abc")

  // Twelve runs; the last one drops the first one's SARIF, which is stuck.
  function TwelveDays(): (runs: seq<RunInput>)
    ensures |runs| == 12
    ensures forall k | 0 <= k < 12 :: runs[k] == DayRun(k, if k == 11 then {FIRST} else {})
  {
    seq(12, k requires 0 <= k < 12 => DayRun(k, if k == 11 then {FIRST} else {}))
  }

  lemma StuckFileIsLeft() returns (trace: seq<State>)
    ensures Runs(trace, TwelveDays()) && trace[0] == State(Absent, {})
    ensures FIRST in Ever(TwelveDays(), 12) * trace[12].files - Named(trace[12].index)
  {
    var runs := TwelveDays();
    trace := Play(State(Absent, {}), runs);
    LogOfDays(runs);
    HistoryOfDays(trace, runs);
    FirstIsThere(trace, runs);
    TheDropLeaves(trace[11], runs[11]);
    assert trace[11 + 1] == RunStep(trace[11], runs[11]);
    EverGrows(runs, 11);
  }

  // Entries of the days before day n, newest first.
  ghost predicate DaysBefore(entries: seq<Entry>, n: nat) {
    |entries| == n && forall i | 0 <= i < n :: entries[i] == EntryOf(DayRun(n - 1 - i, {}))
  }

  lemma LogOfDays(runs: seq<RunInput>)
    requires runs == TwelveDays()
    ensures DaysBefore(Log(runs[..11]), 11)
  {
    AllDaysAreLogged(runs, 11);
    forall i | 0 <= i < 11 ensures Log(runs[..11])[i] == EntryOf(DayRun(10 - i, {})) {
      assert runs[10 - i] == DayRun(10 - i, {});
    }
  }

  lemma HistoryOfDays(trace: seq<State>, runs: seq<RunInput>)
    requires Runs(trace, runs) && |runs| == 12 && trace[0].index == Absent && DaysBefore(Log(runs[..11]), 11)
    ensures DaysBefore(Migrated(LoadManifest(trace[11].index)), 11)
  {
    var log := Log(runs[..11]);
    ManifestIsTheLogsHead(trace, runs, 11);
    assert forall i | 0 <= i < 11 :: Distil(log[i]) == log[i];
    assert DistilAll(log[1..]) == log[1..];
    assert Migrated(LoadManifest(trace[11].index)) == log;
  }

  lemma FirstIsThere(trace: seq<State>, runs: seq<RunInput>)
    requires Runs(trace, runs) && runs == TwelveDays() && trace[0] == State(Absent, {})
    requires DaysBefore(Log(runs[..11]), 11) && DaysBefore(Migrated(LoadManifest(trace[11].index)), 11)
    ensures FIRST in Ever(runs, 11) && FIRST in trace[11].files
  {
    LastIsNamed(Log(runs[..11]), 10);
    forall j | 0 <= j < 12 ensures !RemovesTwin(trace[j], runs[j]) {
      assert runs[j].sarif == Written && !runs[j].merged;
    }
    NamedExistUpto(trace, runs, 11);
    LastIsNamed(Migrated(LoadManifest(trace[11].index)), 10);
    NamesMigrate(LoadManifest(trace[11].index));
  }

  lemma LastIsNamed(entries: seq<Entry>, i: nat)
    requires i < |entries|
    ensures NamesOf(entries[i]) <= NamesIn(entries)
  {
    assert entries == entries[..i] + [entries[i]] + entries[i + 1..];
    NamesInConcat(entries[..i] + [entries[i]], entries[i + 1..]);
    NamesInConcat(entries[..i], [entries[i]]);
    NamesInOne(entries[i]);
  }

  lemma {:induction false} NamesOfDays(entries: seq<Entry>, name: Name)
    requires forall i | 0 <= i < |entries| :: name !in NamesOf(entries[i])
    ensures name !in NamesIn(entries)
  {
    if entries != [] {
      NamesOfDays(entries[1..], name);
    }
  }

  lemma TheDropLeaves(s: State, r: RunInput)
    requires r == DayRun(11, {FIRST}) && FIRST in s.files && DaysBefore(Migrated(LoadManifest(s.index)), 11)
    ensures FIRST in RunStep(s, r).files - Named(RunStep(s, r).index)
  {
    var kept := Capped(Migrated(LoadManifest(s.index)));
    forall i | 0 <= i < |kept| ensures FIRST !in NamesOf(kept[i]) {
      assert kept[i] == EntryOf(DayRun(10 - i, {}));
    }
    NamedByNew(s.index, r);
    NamesOfDays(kept, FIRST);
  }

  // ------------------------------------------------------------------ the cache

  lemma NamesInSnoc(entries: seq<Entry>, k: nat)
    requires k < |entries|
    ensures NamesIn(entries[..k + 1]) == NamesIn(entries[..k]) + NamesOf(entries[k])
  {
    assert entries[..k + 1] == entries[..k] + [entries[k]];
    NamesInConcat(entries[..k], [entries[k]]);
    NamesInOne(entries[k]);
  }

  // Cuts the history to the cap from its old end; what is cut is reaped.
  method Cap(all: seq<Entry>) returns (history: seq<Entry>, reaped: seq<Entry>)
    ensures history == Capped(all) && NamesIn(reaped) == NamesIn(Dropped(all))
  {
    history, reaped := all, [];
    while |history| > HISTORY_MAX
      invariant |history| <= |all| && history == all[..|history|]
      invariant |all| <= HISTORY_MAX ==> history == all
      invariant |all| > HISTORY_MAX ==> |history| >= HISTORY_MAX
      invariant NamesIn(reaped) == NamesIn(all[|history|..])
    {
      var n := |history| - 1;
      var last := history[n];
      assert all[n..] == [last] + all[n + 1..];
      NamesInConcat([last], all[n + 1..]);
      NamesInConcat(reaped, [last]);
      NamesInOne(last);
      reaped := reaped + [last];
      history := history[..n];
    }
  }

  // Names that the new manifest goes on naming.
  method KeepSet(lastRun: Entry, history: seq<Entry>) returns (keep: set<Name>)
    ensures keep == NamesOf(lastRun) + NamesIn(history)
  {
    keep := NamesOf(lastRun);
    var k := 0;
    while k < |history|
      invariant 0 <= k <= |history| && keep == NamesOf(lastRun) + NamesIn(history[..k])
    {
      NamesInSnoc(history, k);
      keep := keep + NamesOf(history[k]);
      k := k + 1;
    }
    assert history[..|history|] == history;
  }

  function WithoutOne(files: set<Name>, name: Option<Name>, keep: set<Name>, stuck: set<Name>): set<Name> {
    if name.Some? && name.value !in keep && name.value !in stuck then files - {name.value} else files
  }

  // Deletes the dropped entries' files, one name at a time.
  method Reap(files: set<Name>, reaped: seq<Entry>, keep: set<Name>, stuck: set<Name>) returns (left: set<Name>)
    ensures left == files - (NamesIn(reaped) - keep - stuck)
  {
    left := files;
    var k := 0;
    while k < |reaped|
      invariant 0 <= k <= |reaped| && left == files - (NamesIn(reaped[..k]) - keep - stuck)
    {
      NamesInSnoc(reaped, k);
      left := WithoutOne(left, reaped[k].sarif, keep, stuck);
      left := WithoutOne(left, reaped[k].html, keep, stuck);
      left := WithoutOne(left, reaped[k].findings, keep, stuck);
      k := k + 1;
    }
    assert reaped[..|reaped|] == reaped;
  }

  class AuditCache {
    var index: Index
    var files: set<Name>

    // Writes the sidecar; its name goes into the entry only if it is there
    // and private.
    method WriteSidecar(r: RunInput) returns (lastRun: Entry)
      modifies `files
      ensures lastRun == EntryOf(r) && files == AfterSidecar(old(files), r)
    {
      lastRun := EntryOf(r).(findings := None);
      if r.merged {
        var name := Name(Findings, r.iso, r.commit);
        if r.sidecar != Failed {
          files := files + {name};
          if r.sidecar == Written {
            lastRun := lastRun.(findings := Some(name));
          } else {
            files := files - {name};
          }
        }
      }
    }

    method RecordRun(r: RunInput) returns (ok: bool, prior: Option<Entry>)
      modifies this
      ensures State(index, files) == RecordStep(old(State(index, files)), r)
      ensures ok == (r.dirOk && r.commitOk)
      ensures prior == if r.dirOk then LoadManifest(old(index)).lastRun else None
    {
      if !r.dirOk {
        return false, None;
      }
      var prev := LoadManifest(index);
      prior := prev.lastRun;
      var lastRun := WriteSidecar(r);
      var all := [];
      if prev.lastRun.Some? {
        all := [Distil(prev.lastRun.value)];
      }
      all := all + prev.history;
      var history, reaped := Cap(all);
      if !r.commitOk {
        return false, prior;
      }
      index := Present(Manifest(Some(lastRun), history));
      var keep := KeepSet(lastRun, history);
      files := Reap(files, reaped, keep, r.stuck);
      ok := true;
    }

    // The end of an audit: artefacts first, then the record.
    method FinishAudit(r: RunInput)
      modifies this
      ensures State(index, files) == RunStep(old(State(index, files)), r)
    {
      var sarif := Name(Sarif, r.iso, r.commit);
      if r.sarif != Failed {
        files := files + {sarif};
        if r.sarif == NotPrivate {
          files := files - {sarif};
        }
      }
      if r.sarif != Written {
        return;
      }
      if r.html {
        files := files + {Name(Html, r.iso, r.commit)};
      }
      var _, _ := RecordRun(r);
    }
  }
}
