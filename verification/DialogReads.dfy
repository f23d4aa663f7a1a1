/** When a run of the dialog read a toggle. The index loop reads each toggle
    once, as it passes the check, and nothing reads it again in that run: what
    the state remembers of it is what the toggle was at that step. From this
    the theorems about the report follow, and so does what a click on All On or
    All Off during a run can change: the checks the loop has yet to reach, and
    no others. The steps that read are those that start checks or go on to the
    next one. */
module DialogReads {
  import opened Dialog

  // Step m of the run the trace is in at k.
  ghost predicate SameRun(trace: seq<State>, m: nat, k: nat)
    requires m + 1 < |trace| && k < |trace|
  {
    trace[m + 1].runGeneration == trace[k].runGeneration
  }

  // From s to t the index loop passes check j, or stops at it.
  ghost predicate Passes(s: State, t: State, j: nat) {
    j <= t.currentCheck && !(s.runGeneration == t.runGeneration && j <= s.currentCheck)
  }

  // In the run at k, step m read the toggle of check j.
  ghost predicate ReadAt(trace: seq<State>, k: nat, m: nat, j: nat)
    requires k < |trace|
  {
    m < k && j < |trace[m + 1].selected| && SameRun(trace, m, k) && Passes(trace[m], trace[m + 1], j)
  }

  lemma SeenLength(c: Config, selected: seq<bool>, trace: seq<State>, events: seq<Event>, k: nat)
    requires RunOf(c, selected, trace, events) && k < |trace|
    ensures |trace[k].selected| == |c.checks|
    ensures var s := trace[k];
            |s.seen| == (if s.currentCheck == |c.checks| then |c.checks| else s.currentCheck + 1)
            && (s.phase == Checking ==> s.currentCheck < |c.checks|)
  {
    Reachable(c, selected, trace, events, k);
  }

  // What a step adds to the toggles seen are the toggles at that step.
  ghost predicate SeenGrew(s: State, t: State) {
    && s.runGeneration <= t.runGeneration
    && var before := if s.runGeneration == t.runGeneration then s.seen else [];
    && before <= t.seen && |t.seen| <= |t.selected|
    && forall j | |before| <= j < |t.seen| :: t.seen[j] == t.selected[j]
  }

  // The run goes on: its index does not go back.
  ghost predicate Kept(s: State, t: State) {
    s.runGeneration == t.runGeneration && s.runSelected == t.runSelected && s.currentCheck <= t.currentCheck
  }

  // A run whose checks were started just now, with the toggles as they are.
  ghost predicate Fresh(t: State) {
    t.phase in {Checking, Finished} ==> t.runSelected == t.selected && t.seen <= t.selected
  }

  ghost predicate WentOn(s: State, t: State) {
    Fresh(t) || (Kept(s, t) && (s.phase == Checking || (t.seen == s.seen && t.phase == s.phase)))
  }

  // The index loop alone reads the toggles.
  lemma LoopReads(c: Config, s: State, k: nat)
    requires Shaped(c, s) && s.currentCheck < k <= |c.checks| && |s.seen| == s.currentCheck + 1
    ensures SeenGrew(s, MovedTo(s, k))
  {
  }

  lemma SeenGrewAgain(s: State, t: State, u: State)
    requires SeenGrew(s, t) && SeenGrew(t, u) && Kept(s, t) && Kept(t, u) && t.selected == u.selected
    ensures SeenGrew(s, u)
  {
  }

  lemma StopReads(c: Config, s: State, k: nat)
    requires Shaped(c, s) && s.currentCheck < k <= |c.checks| && |s.seen| == s.currentCheck + 1
    ensures SeenGrew(s, StopAt(c, s, k)) && Kept(s, StopAt(c, s, k))
  {
    LoopReads(c, s, k);
    SameReads(s, MovedTo(s, k), StopAt(c, s, k));
  }

  lemma SameReads(s: State, t: State, u: State)
    requires SeenGrew(s, t) && Kept(s, t) && Kept(t, u) && t.seen == u.seen && t.selected == u.selected
    ensures SeenGrew(s, u) && Kept(s, u)
  {
  }

  lemma StartedCheckReads(c: Config, s: State, unstartable: set<nat>)
    requires Shaped(c, s) && s.currentCheck < |c.checks| && |s.seen| == s.currentCheck + 1
    requires s.cancelled || !FailsToStart(c, NextSelected(s.selected, s.currentCheck + 1), unstartable)
    ensures var t := RunNextCheck(c, s, unstartable);
            SeenGrew(s, t) && Kept(s, t)
  {
    if !s.cancelled {
      StopReads(c, s, NextSelected(s.selected, s.currentCheck + 1));
    }
  }

  lemma {:induction false} RunReads(c: Config, s: State, unstartable: set<nat>)
    requires Shaped(c, s) && s.currentCheck < |c.checks| && |s.seen| == s.currentCheck + 1
    ensures var t := RunNextCheck(c, s, unstartable);
            SeenGrew(s, t) && Kept(s, t)
    decreases |c.checks| - s.currentCheck
  {
    var k := NextSelected(s.selected, s.currentCheck + 1);
    if !s.cancelled && FailsToStart(c, k, unstartable) {
      var u := AfterFailedStart(s, k);
      LoopReads(c, s, k);
      RunReads(c, u, unstartable);
      var t := RunNextCheck(c, u, unstartable);
      SeenGrewAgain(s, u, t);
      FailedStartGoesOn(c, s, k, unstartable);
    } else {
      StartedCheckReads(c, s, unstartable);
    }
  }

  lemma StartReads(c: Config, s: State, unstartable: set<nat>)
    requires Shaped(c, s) && s.seen == []
    ensures var t := StartSelectedChecks(c, s, unstartable);
            SeenGrew(s, t) && t.runGeneration == s.runGeneration && Fresh(t)
  {
    RunReads(c, QueueChecks(s, CountSelected(s.selected, |s.selected|)), unstartable);
  }

  lemma ReportReads(c: Config, s: State, what: What, unstartable: set<nat>)
    requires AtCheck(c, s)
    ensures var t := AddAndGoOn(c, s, what, Owner(s.generation, s.currentCheck), unstartable);
            SeenGrew(s, t) && Kept(s, t)
  {
    RunReads(c, AddRow(s, what, Owner(s.generation, s.currentCheck)), unstartable);
  }

  lemma NoGitReads(c: Config, t: State, lines: bool, unstartable: set<nat>)
    requires Shaped(c, t) && t.seen == [] && !c.isGit && t.git.waiters == []
    ensures var u := RequestRecentChangeSets(c, t, lines, StartRun(t.generation), unstartable);
            SeenGrew(t, u) && u.runGeneration == t.runGeneration && Fresh(u)
  {
    var u := t.(git := t.git.(waiters := []));
    var waiters := [] + [StartRun(t.generation)];
    NewStart([], t.generation);
    WakeOne(c, u, waiters, unstartable);
    StartReads(c, u, unstartable);
  }

  lemma ResetReads(s: State, u: State)
    requires s.runGeneration <= s.generation && SeenGrew(ResetForRun(s), u) && u.runGeneration == s.generation + 1
    ensures SeenGrew(s, u)
  {
  }

  lemma RunAuditReads(c: Config, s: State, scoped: bool, lines: bool, unstartable: set<nat>)
    requires Inv(c, s) && s.runEnabled
    ensures SeenGrew(s, RunAudit(c, s, scoped, lines, unstartable)) && Fresh(RunAudit(c, s, scoped, lines, unstartable))
  {
    var t := ResetForRun(s);
    if !scoped {
      StartReads(c, t, unstartable);
      ResetReads(s, StartSelectedChecks(c, t, unstartable));
    } else if c.isGit {
    } else {
      ResetIsNotStarted(c, s);
      NoGitReads(c, t, lines, unstartable);
      ResetReads(s, RequestRecentChangeSets(c, t, lines, StartRun(t.generation), unstartable));
    }
  }

  lemma GitReads(c: Config, s: State, request: nat, unstartable: set<nat>)
    requires Inv(c, s)
    ensures SeenGrew(s, OnGitResult(c, s, request, unstartable)) && WentOn(s, OnGitResult(c, s, request, unstartable))
  {
    if request == s.git.request {
      var u := s.(git := s.git.(outstanding := s.git.outstanding - {request}, inFlight := false, waiters := []));
      if s.phase == WaitingForGit {
        WakeOne(c, u, s.git.waiters, unstartable);
        StartReads(c, u, unstartable);
      } else {
        WakeNone(c, u, s.git.waiters, unstartable);
      }
    }
  }

  lemma SinceBaselineReads(c: Config, s: State)
    requires Inv(c, s)
    ensures SeenGrew(s, Step(c, s, SinceBaselineToggled)) && WentOn(s, Step(c, s, SinceBaselineToggled))
  {
    if !c.isGit {
      WakeNone(c, s.(git := s.git.(waiters := [])), s.git.waiters + [Render], {});
    }
  }

  lemma ProcessReads(c: Config, s: State, what: What, unstartable: set<nat>)
    requires Inv(c, s) && s.process.Up?
    ensures InRange(c, s) && !s.cancelled
    ensures var t := AddAndGoOn(c, s.(timer := false, process := NotRunning), what, s.process.owner, unstartable);
            SeenGrew(s, t) && WentOn(s, t)
  {
    ReportReads(c, s.(timer := false, process := NotRunning), what, unstartable);
  }

  lemma LaneReads(c: Config, s: State, lane: Owner, output: string, unstartable: set<nat>)
    requires Inv(c, s) && lane in s.lanes
    ensures SeenGrew(s, OnLaneResult(c, s, lane, output, unstartable))
    ensures WentOn(s, OnLaneResult(c, s, lane, output, unstartable))
  {
    if lane.generation == s.generation {
      ReportReads(c, s.(lanes := s.lanes - {lane}), Findings(output), unstartable);
    }
  }

  lemma StepReads(c: Config, s: State, e: Event)
    requires Inv(c, s) && Enabled(c, s, e)
    ensures SeenGrew(s, Step(c, s, e)) && WentOn(s, Step(c, s, e))
  {
    match e
    case Run(scoped, lines, unstartable) => RunAuditReads(c, s, scoped, lines, unstartable);
    case Timeout(unstartable) => ProcessReads(c, s, TimedOut, unstartable);
    case ProcessFinished(exit, unstartable) => ProcessReads(c, s, WhatOf(s, exit), unstartable);
    case LaneResult(lane, output, unstartable) => LaneReads(c, s, lane, output, unstartable);
    case GitResult(request, unstartable) => GitReads(c, s, request, unstartable);
    case SinceBaselineToggled => SinceBaselineReads(c, s);
    case _ =>
  }

  lemma TraceReads(c: Config, selected: seq<bool>, trace: seq<State>, events: seq<Event>, m: nat)
    requires RunOf(c, selected, trace, events) && m < |events|
    ensures SeenGrew(trace[m], trace[m + 1]) && WentOn(trace[m], trace[m + 1])
  {
    Reachable(c, selected, trace, events, m);
    StepReads(c, trace[m], events[m]);
  }

  lemma {:induction false} GenerationsAscend(c: Config, selected: seq<bool>, trace: seq<State>, events: seq<Event>,
      a: nat, b: nat)
    requires RunOf(c, selected, trace, events) && a <= b < |trace|
    ensures trace[a].runGeneration <= trace[b].runGeneration
  {
    if a < b {
      GenerationsAscend(c, selected, trace, events, a, b - 1);
      TraceReads(c, selected, trace, events, b - 1);
    }
  }

  // What a step of a run saw stays seen while the run lasts.
  lemma SeenStaysOneStep(seen: seq<bool>, s: State, t: State)
    requires seen <= s.seen && SeenGrew(s, t) && s.runGeneration == t.runGeneration
    ensures seen <= t.seen
  {
  }

  lemma {:induction false} SeenStays(c: Config, selected: seq<bool>, trace: seq<State>, events: seq<Event>, a: nat,
      b: nat)
    requires RunOf(c, selected, trace, events) && a <= b < |trace| && trace[a].runGeneration == trace[b].runGeneration
    ensures trace[a].seen <= trace[b].seen
  {
    if a < b {
      GenerationsAscend(c, selected, trace, events, a, b - 1);
      TraceReads(c, selected, trace, events, b - 1);
      SeenStays(c, selected, trace, events, a, b - 1);
      SeenStaysOneStep(trace[a].seen, trace[b - 1], trace[b]);
    }
  }

  lemma SeenAsRead(c: Config, selected: seq<bool>, trace: seq<State>, events: seq<Event>, k: nat, m: nat, j: nat)
    requires RunOf(c, selected, trace, events) && k < |trace| && ReadAt(trace, k, m, j)
    ensures j < |trace[k].seen| && trace[k].seen[j] == trace[m + 1].selected[j]
  {
    TraceReads(c, selected, trace, events, m);
    SeenLength(c, selected, trace, events, m);
    SeenLength(c, selected, trace, events, m + 1);
    SeenStays(c, selected, trace, events, m + 1, k);
  }

  lemma {:induction false} SeenWasRead(c: Config, selected: seq<bool>, trace: seq<State>, events: seq<Event>, k: nat,
      j: nat)
    requires RunOf(c, selected, trace, events) && k < |trace| && j < |trace[k].seen|
    ensures exists m: nat :: ReadAt(trace, k, m, j)
  {
    assert k > 0;
    var s, t := trace[k - 1], trace[k];
    TraceReads(c, selected, trace, events, k - 1);
    SeenLength(c, selected, trace, events, k - 1);
    SeenLength(c, selected, trace, events, k);
    if s.runGeneration == t.runGeneration && j < |s.seen| {
      SeenWasRead(c, selected, trace, events, k - 1, j);
      var m: nat :| ReadAt(trace, k - 1, m, j);
      assert ReadAt(trace, k, m, j);
    } else {
      assert ReadAt(trace, k, k - 1, j);
    }
  }

  // ------------------------------------------- a bulk click during the run

  // The step changes the toggle of a check the run has yet to reach.
  ghost predicate ChangesBeyond(s: State, t: State) {
    s.phase == Checking && exists j: nat | s.currentCheck < j < |s.selected| && j < |t.selected| ::
        t.selected[j] != s.selected[j]
  }

  ghost predicate BeyondIsAsStarted(s: State) {
    && |s.selected| == |s.runSelected|
    && forall j: nat | s.currentCheck < j < |s.selected| :: s.selected[j] == s.runSelected[j]
  }

  // The toggles read, and those yet to be read, are the run's own.
  ghost predicate AsStarted(s: State) {
    && (s.phase in {Checking, Finished} ==> s.seen <= s.runSelected)
    && (s.phase == Checking ==> BeyondIsAsStarted(s))
  }

  lemma FreshIsAsStarted(t: State)
    requires Fresh(t)
    ensures AsStarted(t)
  {
  }

  lemma StaysAsStarted(s: State, t: State)
    requires AsStarted(s) && SeenGrew(s, t) && WentOn(s, t) && !ChangesBeyond(s, t)
    requires |s.selected| == |t.selected| && (s.phase == Checking ==> |s.seen| == s.currentCheck + 1)
    ensures AsStarted(t)
  {
  }

  lemma StepIsAsStarted(c: Config, selected: seq<bool>, trace: seq<State>, events: seq<Event>, k: nat)
    requires RunOf(c, selected, trace, events) && k < |events|
    requires AsStarted(trace[k]) && !ChangesBeyond(trace[k], trace[k + 1])
    ensures AsStarted(trace[k + 1])
  {
    TraceReads(c, selected, trace, events, k);
    SeenLength(c, selected, trace, events, k);
    SeenLength(c, selected, trace, events, k + 1);
    StaysAsStarted(trace[k], trace[k + 1]);
  }

  lemma {:induction false} UndisturbedIsAsStarted(c: Config, selected: seq<bool>, trace: seq<State>,
      events: seq<Event>, k: nat)
    requires RunOf(c, selected, trace, events) && k < |trace|
    requires forall m | 0 <= m < k && SameRun(trace, m, k) :: !ChangesBeyond(trace[m], trace[m + 1])
    ensures AsStarted(trace[k])
  {
    if k > 0 {
      TraceReads(c, selected, trace, events, k - 1);
      if Fresh(trace[k]) {
        FreshIsAsStarted(trace[k]);
      } else {
        assert Kept(trace[k - 1], trace[k]);
        forall m | 0 <= m < k - 1 && SameRun(trace, m, k - 1) ensures !ChangesBeyond(trace[m], trace[m + 1]) {
          assert SameRun(trace, m, k);
        }
        assert SameRun(trace, k - 1, k);
        UndisturbedIsAsStarted(c, selected, trace, events, k - 1);
        StepIsAsStarted(c, selected, trace, events, k - 1);
      }
    }
  }
}
