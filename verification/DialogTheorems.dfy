/** What every run of the audit dialog keeps. */
module DialogTheorems {
  import opened Dialog
  import opened DialogReads

  // ---------------------------------------------------- what the report holds

  // How far the index has been: the checks below are reported or were off.
  function Reach(c: Config, s: State): int {
    if s.phase == Finished then |c.checks| else if s.phase in {Checking, Cancelled} then s.currentCheck else -1
  }

  // The rows of checks, without a cancelled run's sentinel.
  function CheckRows(s: State): seq<Row> {
    if s.phase == Cancelled && s.completed != [] then s.completed[..|s.completed| - 1] else s.completed
  }

  lemma {:induction false} BelowMembers(selected: seq<bool>, k: nat, j: nat)
    requires k <= |selected|
    ensures j in SelectedBelow(selected, k) <==> j < k && selected[j]
  {
    if k > 0 {
      BelowMembers(selected, k - 1, j);
    }
  }

  ghost predicate Ascending(checks: seq<nat>) {
    forall a, b | 0 <= a < b < |checks| :: checks[a] < checks[b]
  }

  lemma {:induction false} BelowAscends(selected: seq<bool>, k: nat)
    requires k <= |selected|
    ensures Ascending(SelectedBelow(selected, k))
  {
    if k > 0 {
      BelowAscends(selected, k - 1);
      var below := SelectedBelow(selected, k - 1);
      forall a | 0 <= a < |below| ensures below[a] < k - 1 {
        BelowMembers(selected, k - 1, below[a]);
      }
    }
  }

  lemma BelowIsInjective(a: seq<bool>, b: seq<bool>)
    requires |a| == |b| && SelectedBelow(a, |a|) == SelectedBelow(b, |b|)
    ensures a == b
  {
    forall j | 0 <= j < |a| ensures a[j] == b[j] {
      BelowMembers(a, |a|, j);
      BelowMembers(b, |b|, j);
    }
  }

  lemma RowsAreSeen(c: Config, s: State)
    requires Inv(c, s)
    ensures Reach(c, s) <= |s.seen| && |CheckRows(s)| == s.checksRun
    ensures if Reach(c, s) < 0 then CheckRows(s) == [] else ChecksOf(CheckRows(s)) == SelectedBelow(s.seen, Reach(c, s))
  {
  }

  // ------------------------------------------------------------- main results

  // A cancelled run's sentinel is its last row, for the check it stopped at,
  // and no other row is one.
  ghost predicate SentinelIsLast(s: State) {
    && (forall k | 0 <= k < |CheckRows(s)| :: CheckRows(s)[k].what != CancelledByUser)
    && (s.phase == Cancelled && s.completed != [] ==>
      var last := s.completed[|s.completed| - 1]; last.what == CancelledByUser && last.check == s.currentCheck)
  }

  // In every run the rows ascend in catalogue order and are counted, and a
  // check below the index has a row exactly when its toggle was on as the
  // index passed it.
  lemma ReportIsWhatWasOn(c: Config, selected: seq<bool>, trace: seq<State>, events: seq<Event>, k: nat)
    requires RunOf(c, selected, trace, events) && k < |trace|
    ensures var rows := ChecksOf(CheckRows(trace[k]));
            && Ascending(rows) && |rows| == trace[k].checksRun
            && (forall j | j in rows :: j < Reach(c, trace[k]) && exists m: nat :: ReadAt(trace, k, m, j))
            && (forall m: nat, j: nat | ReadAt(trace, k, m, j) && j < Reach(c, trace[k]) ::
              j in rows <==> trace[m + 1].selected[j])
    ensures SentinelIsLast(trace[k])
  {
    var s := trace[k];
    var rows := ChecksOf(CheckRows(s));
    Reachable(c, selected, trace, events, k);
    RowsAreSeen(c, s);
    if Reach(c, s) >= 0 {
      BelowAscends(s.seen, Reach(c, s));
      forall j: nat ensures j in rows <==> j < Reach(c, s) && s.seen[j] {
        BelowMembers(s.seen, Reach(c, s), j);
      }
      forall j | j in rows ensures exists m: nat :: ReadAt(trace, k, m, j) {
        SeenWasRead(c, selected, trace, events, k, j);
      }
      forall m: nat, j: nat | ReadAt(trace, k, m, j) && j < Reach(c, s)
        ensures j in rows <==> trace[m + 1].selected[j]
      {
        SeenAsRead(c, selected, trace, events, k, m, j);
      }
    }
  }

  // Every toggle read in the run at k was as when its checks started.
  ghost predicate ReadAsStarted(trace: seq<State>, k: nat)
    requires k < |trace|
  {
    forall m: nat, j: nat | ReadAt(trace, k, m, j) && j < |trace[k].runSelected| ::
      trace[m + 1].selected[j] == trace[k].runSelected[j]
  }

  ghost predicate IsTheSelection(c: Config, s: State) {
    && |s.runSelected| == |c.checks| && ChecksOf(s.completed) == SelectedBelow(s.runSelected, |s.runSelected|)
    && s.checksRun == s.totalSelected
  }

  lemma SelectionIsSeen(c: Config, s: State)
    requires Inv(c, s) && s.phase == Finished
    ensures IsTheSelection(c, s) <==> s.seen == s.runSelected
  {
    CountIsLength(s.runSelected, |s.runSelected|);
    if IsTheSelection(c, s) {
      BelowIsInjective(s.seen, s.runSelected);
    }
  }

  lemma FinishedIsTheSelection(c: Config, selected: seq<bool>, trace: seq<State>, events: seq<Event>, k: nat)
    requires RunOf(c, selected, trace, events) && k < |trace| && trace[k].phase == Finished
    ensures IsTheSelection(c, trace[k]) <==> ReadAsStarted(trace, k)
  {
    var s := trace[k];
    Reachable(c, selected, trace, events, k);
    SelectionIsSeen(c, s);
    assert |s.seen| == |s.runSelected|;
    if ReadAsStarted(trace, k) {
      forall j: nat | j < |s.seen| ensures s.seen[j] == s.runSelected[j] {
        SeenWasRead(c, selected, trace, events, k, j);
        var m: nat :| ReadAt(trace, k, m, j);
        SeenAsRead(c, selected, trace, events, k, m, j);
      }
      assert s.seen == s.runSelected;
    }
    if s.seen == s.runSelected {
      forall m: nat, j: nat | ReadAt(trace, k, m, j) && j < |s.runSelected|
        ensures trace[m + 1].selected[j] == s.runSelected[j]
      {
        SeenAsRead(c, selected, trace, events, k, m, j);
      }
    }
  }

  // ------------------------------------------- a bulk click during the run

  lemma OnlyBulkClicksChange(c: Config, s: State, e: Event)
    requires Inv(c, s) && Enabled(c, s, e) && ChangesBeyond(s, Step(c, s, e))
    ensures e.AllOn? || e.AllOff?
  {
  }

  // A run in which no bulk click changes a check beyond the current one
  // reports its selection.
  lemma UndisturbedIsTheSelection(c: Config, selected: seq<bool>, trace: seq<State>, events: seq<Event>, k: nat)
    requires RunOf(c, selected, trace, events) && k < |trace| && trace[k].phase == Finished
    requires forall m | 0 <= m < k && SameRun(trace, m, k) :: !ChangesBeyond(trace[m], trace[m + 1])
    ensures IsTheSelection(c, trace[k])
  {
    Reachable(c, selected, trace, events, k);
    UndisturbedIsAsStarted(c, selected, trace, events, k);
    SelectionIsSeen(c, trace[k]);
  }

  // Two checks that were both on: All Off during the first leaves it alone in
  // the report of the finished run, which still tells a total of two.
  lemma AllOffCutsTheRun()
    returns (c: Config, selected: seq<bool>, trace: seq<State>, events: seq<Event>)
    ensures RunOf(c, selected, trace, events)
            && events == [Run(false, false, {}), AllOff, ProcessFinished(Exit(false, 0, "", ""), {})]
    ensures trace[3].phase == Finished && trace[3].runSelected == [true, true]
    ensures ChecksOf(trace[3].completed) == [0] && trace[3].checksRun == 1 && trace[3].totalSelected == 2
  {
    c, selected := Config([Check(false, true), Check(false, true)], false), [true, true];
    events := [Run(false, false, {}), AllOff, ProcessFinished(Exit(false, 0, "", ""), {})];
    var s := Initial(selected);
    FirstStarts(c);
    var t := Step(c, s, events[0]);
    var u := t.(selected := [false, false]);
    assert u == Step(c, t, AllOff);
    var v := OnlyFirstReports(c, u);
    ThreeSteps(c, selected, [s, t, u, v], events);
    trace := [s, t, u, v];
  }

  lemma ThreeSteps(c: Config, selected: seq<bool>, trace: seq<State>, events: seq<Event>)
    requires |trace| == 4 && |events| == 3 && |selected| == |c.checks| && trace[0] == Initial(selected)
    requires Shaped(c, trace[0]) && Enabled(c, trace[0], events[0]) && trace[1] == Step(c, trace[0], events[0])
    requires Shaped(c, trace[1]) && Enabled(c, trace[1], events[1]) && trace[2] == Step(c, trace[1], events[1])
    requires Shaped(c, trace[2]) && Enabled(c, trace[2], events[2]) && trace[3] == Step(c, trace[2], events[2])
    ensures RunOf(c, selected, trace, events)
  {
  }

  lemma OnlyFirstReports(c: Config, u: State) returns (v: State)
    requires Shaped(c, u) && |c.checks| == 2 && u.selected == [false, false] && u.currentCheck == 0 && !u.cancelled
    requires u.completed == [] && u.checksRun == 0 && u.process == Up(Owner(u.generation, 0))
    ensures v == Step(c, u, ProcessFinished(Exit(false, 0, "", ""), {})) && v.phase == Finished
    ensures ChecksOf(v.completed) == [0] && v.checksRun == 1 && v.totalSelected == u.totalSelected
            && v.runSelected == u.runSelected
  {
    var origin := u.process.owner;
    var w := AddRow(u.(timer := false, process := NotRunning), WhatOf(u, Exit(false, 0, "", "")), origin);
    NextIsLast(c, w);
    v := FinishRun(MovedTo(w, 2)).(phase := Finished);
  }

  // A run over two selected process checks starts with the first.
  lemma FirstStarts(c: Config)
    requires c == Config([Check(false, true), Check(false, true)], false)
    ensures var s := RunAudit(c, Initial([true, true]), false, false, {});
            s == State([true, true], 0, 0, 2, [], false, 1, false, true, Up(Owner(1, 0)), false, true, {},
                       Git([], false, false, 0, {}), Checking, 1, [true, true], [true], 1)
  {
    var on := [true, true];
    assert CountSelected(on, 0) == 0 && CountSelected(on, 1) == 1 && CountSelected(on, 2) == 2;
    assert NextSelected(on, 0) == 0;
  }

  // Behind check 0 of two, with check 1 off, the run is over.
  lemma NextIsLast(c: Config, s: State)
    requires Shaped(c, s) && |c.checks| == 2 && !s.cancelled && s.currentCheck == 0 && !s.selected[1]
    ensures RunNextCheck(c, s, {}) == FinishRun(MovedTo(s, 2)).(phase := Finished)
  {
    assert NextSelected(s.selected, 2) == 2 && NextSelected(s.selected, 1) == 2;
  }

  // All Off and then All On, with every check on and available, leave the
  // dialog as it was: a bulk click alone is no failure.
  lemma UndoneClickIsHarmless(c: Config, s: State)
    requires Shaped(c, s) && forall j | 0 <= j < |c.checks| :: s.selected[j] && c.checks[j].available
    ensures Step(c, Step(c, s, AllOff), AllOn) == s
    ensures s.phase == Checking && s.currentCheck + 1 < |c.checks| ==> ChangesBeyond(s, Step(c, s, AllOff))
  {
    var t := Step(c, s, AllOff);
    assert TurnAllOn(c, t.selected) == s.selected;
    if s.phase == Checking && s.currentCheck + 1 < |c.checks| {
      assert t.selected[s.currentCheck + 1] != s.selected[s.currentCheck + 1];
    }
  }

  // No row comes from work of another run, and every row's work was its own.
  lemma RowsAreOfThisRun(c: Config, selected: seq<bool>, trace: seq<State>, events: seq<Event>, k: nat, j: nat)
    requires RunOf(c, selected, trace, events) && k < |trace| && j < |trace[k].completed|
    ensures trace[k].completed[j].origin == Owner(trace[k].runGeneration, trace[k].completed[j].check)
  {
    Reachable(c, selected, trace, events, k);
  }

  // The checks of a run start at most once, whatever git requests it joined.
  lemma ChecksStartOnce(c: Config, selected: seq<bool>, trace: seq<State>, events: seq<Event>, k: nat)
    requires RunOf(c, selected, trace, events) && k < |trace|
    ensures trace[k].starts <= 1
    ensures trace[k].phase in {Checking, Finished} ==> trace[k].starts == 1
  {
    Reachable(c, selected, trace, events, k);
  }

  // After Cancel nothing is added until the next Run.
  lemma CancelIsFinal(c: Config, selected: seq<bool>, trace: seq<State>, events: seq<Event>, k: nat)
    requires RunOf(c, selected, trace, events) && k < |events| && trace[k].phase == Cancelled && !events[k].Run?
    ensures trace[k + 1].phase == Cancelled && trace[k + 1].completed == trace[k].completed
    ensures trace[k + 1].checksRun == trace[k].checksRun && trace[k + 1].starts == trace[k].starts
  {
    var s := trace[k];
    Reachable(c, selected, trace, events, k);
    match events[k]
    case GitResult(request, unstartable) =>
      WakeNone(c, s.(git := s.git.(outstanding := s.git.outstanding - {request}, inFlight := false, waiters := [])),
          s.git.waiters, unstartable);
    case SinceBaselineToggled =>
      WakeNone(c, s.(git := s.git.(waiters := [])), s.git.waiters + [Render], {});
    case _ =>
  }

  // A lane result or a git continuation of an older run changes nothing a run
  // can see.
  lemma StaleResultsAreDropped(c: Config, s: State, lane: Owner, output: string, request: nat, unstartable: set<nat>)
    requires Inv(c, s)
    ensures lane.generation != s.generation
        ==> OnLaneResult(c, s, lane, output, unstartable) == s.(lanes := s.lanes - {lane})
    ensures NoStart(s.git.waiters, s.generation)
        ==> OnGitResult(c, s, request, unstartable) == s.(git := OnGitResult(c, s, request, unstartable).git)
  {
    if NoStart(s.git.waiters, s.generation) {
      WakeNone(c, s.(git := s.git.(outstanding := s.git.outstanding - {request}, inFlight := false, waiters := [])),
          s.git.waiters, unstartable);
    }
  }

  ghost predicate WorkIsOut(c: Config, s: State) {
    InRange(c, s) && (s.process.Up? || Owner(s.generation, s.currentCheck) in s.lanes)
  }

  ghost predicate GitIsOut(s: State) {
    s.git.inFlight && s.git.request in s.git.outstanding && OneStart(s.git.waiters, s.generation)
  }

  // A run that is not over can go on: its work is out, or its git request is.
  lemma NeverStuck(c: Config, selected: seq<bool>, trace: seq<State>, events: seq<Event>, k: nat)
    requires RunOf(c, selected, trace, events) && k < |trace|
    ensures trace[k].phase == Checking ==> WorkIsOut(c, trace[k])
    ensures trace[k].phase == WaitingForGit ==> GitIsOut(trace[k])
  {
    Reachable(c, selected, trace, events, k);
  }
}
