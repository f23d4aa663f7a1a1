/** What each row of the report says, told by the event that made it. */
module DialogRows {
  import opened Dialog

  // The event ends the check the run is at: by its own process or lane, its
  // time, or the user.
  predicate EndsCheck(s: State, e: Event) {
    match e
    case ProcessFinished(_, _) => true
    case Timeout(_) => true
    case LaneResult(lane, _, _) => lane.generation == s.generation
    case Cancel => 0 <= s.currentCheck < |s.selected|
    case _ => false
  }

  function Unstartable(e: Event): set<nat> {
    match e
    case Run(_, _, unstartable) => unstartable
    case ProcessFinished(_, unstartable) => unstartable
    case Timeout(unstartable) => unstartable
    case LaneResult(_, _, unstartable) => unstartable
    case GitResult(_, unstartable) => unstartable
    case _ => {}
  }

  // The tool errored out before it found anything.
  predicate FailedQuietly(exit: Exit) {
    exit.code != 0 && exit.out == "" && exit.err != ""
  }

  // What is read of an exit: one channel, or both when both have text.
  predicate IsText(text: string, exit: Exit) {
    && (exit.out == "" ==> text == exit.err) && (exit.err == "" ==> text == exit.out)
    && (exit.out != "" && exit.err != "" ==> text == exit.out + "\n" + exit.err)
  }

  predicate TellsExit(what: What, exit: Exit, overflowed: bool) {
    && (what == OutputTooLarge <==> overflowed)
    && (what.ToolCrashed? <==> !overflowed && exit.crash)
    && (what.ToolFailed? <==> !overflowed && !exit.crash && FailedQuietly(exit))
    && (what.Findings? <==> !overflowed && !exit.crash && !FailedQuietly(exit))
    && (what.ToolCrashed? || what.ToolFailed? ==> what.err == exit.err)
    && (what.Findings? ==> IsText(what.output, exit))
  }

  // The row of the check that ended.
  predicate TellsEnd(s: State, e: Event, what: What) {
    match e
    case ProcessFinished(exit, _) => TellsExit(what, exit, s.overflowed)
    case Timeout(_) => what == TimedOut
    case LaneResult(_, output, _) => what == Findings(output)
    case _ => what == CancelledByUser
  }

  // A check behind it whose process did not start.
  predicate TellsFailedStart(c: Config, e: Event, row: Row) {
    row.what == FailedToStart && row.check < |c.checks| && row.check in Unstartable(e) && !c.checks[row.check].inProcess
  }

  ghost predicate AllFailedStarts(c: Config, e: Event, rows: seq<Row>, behind: int) {
    forall j | 0 <= j < |rows| :: TellsFailedStart(c, e, rows[j]) && rows[j].check > behind
  }

  // The rows of a step: the check's that ended, then failed starts.
  ghost predicate TellsRows(c: Config, s: State, e: Event, rows: seq<Row>) {
    if EndsCheck(s, e) then
      && |rows| > 0 && rows[0].check == s.currentCheck && TellsEnd(s, e, rows[0].what)
      && AllFailedStarts(c, e, rows[1..], s.currentCheck)
    else AllFailedStarts(c, e, rows, -1)
  }

  // ------------------------------------------------------------------ one step

  // A process that is up after the index loop is a new check's.
  ghost predicate NewProcess(s: State, t: State) {
    t.process.Up? && t.process != s.process ==> !t.overflowed && t.process.owner.check > s.currentCheck
  }

  // From s to t these rows were added, all of them failed starts.
  ghost predicate OnlyFailedStarts(c: Config, s: State, t: State, e: Event, rows: seq<Row>) {
    && t.completed == s.completed + rows && AllFailedStarts(c, e, rows, s.currentCheck)
    && t.runGeneration == s.runGeneration && NewProcess(s, t)
  }

  lemma NoRows(c: Config, s: State, e: Event, t: State)
    requires t.completed == s.completed && t.runGeneration == s.runGeneration && NewProcess(s, t)
    ensures OnlyFailedStarts(c, s, t, e, [])
  {
    assert s.completed == s.completed + [];
  }

  lemma OneMoreFailedStart(c: Config, s: State, e: Event, k: nat, t: State, later: seq<Row>)
    requires Shaped(c, s) && s.currentCheck < k && FailsToStart(c, k, Unstartable(e))
    requires OnlyFailedStarts(c, AfterFailedStart(s, k), t, e, later)
    ensures OnlyFailedStarts(c, s, t, e, [Row(k, FailedToStart, Owner(s.generation, k))] + later)
  {
    var row := Row(k, FailedToStart, Owner(s.generation, k));
    assert s.completed + [row] + later == s.completed + ([row] + later);
    assert TellsFailedStart(c, e, row);
  }

  lemma StopRows(c: Config, s: State, e: Event, k: nat)
    requires Shaped(c, s) && s.currentCheck < k <= |c.checks|
    ensures OnlyFailedStarts(c, s, StopAt(c, s, k), e, [])
  {
    var u := MovedTo(s, k);
    var t := StopAt(c, s, k);
    assert t.completed == s.completed && t.runGeneration == s.runGeneration;
    assert k < |c.checks| ==> t == StartCheck(c, u);
    NoRows(c, s, e, t);
  }

  lemma {:induction false} LoopRows(c: Config, s: State, e: Event) returns (rows: seq<Row>)
    requires Shaped(c, s) && s.currentCheck < |c.checks|
    ensures OnlyFailedStarts(c, s, RunNextCheck(c, s, Unstartable(e)), e, rows)
    decreases |c.checks| - s.currentCheck
  {
    var k := NextSelected(s.selected, s.currentCheck + 1);
    rows := [];
    if s.cancelled {
      NoRows(c, s, e, s);
    } else if FailsToStart(c, k, Unstartable(e)) {
      var later := LoopRows(c, AfterFailedStart(s, k), e);
      rows := [Row(k, FailedToStart, Owner(s.generation, k))] + later;
      FailedStartGoesOn(c, s, k, Unstartable(e));
      OneMoreFailedStart(c, s, e, k, RunNextCheck(c, s, Unstartable(e)), later);
    } else {
      StopRows(c, s, e, k);
    }
  }

  lemma StartRows(c: Config, s: State, e: Event) returns (rows: seq<Row>)
    requires Shaped(c, s) && s.currentCheck == -1
    ensures OnlyFailedStarts(c, s, StartSelectedChecks(c, s, Unstartable(e)), e, rows)
  {
    var total := CountSelected(s.selected, |s.selected|);
    if total == 0 {
      rows := [];
      NoRows(c, s, e, StartSelectedChecks(c, s, Unstartable(e)));
    } else {
      rows := LoopRows(c, QueueChecks(s, total), e);
    }
  }

  // The row of the check at work, then failed starts.
  lemma EndRows(c: Config, s: State, e: Event, what: What, origin: Owner) returns (rows: seq<Row>)
    requires Shaped(c, s) && InRange(c, s)
    ensures var t := AddAndGoOn(c, s, what, origin, Unstartable(e));
            && t.completed == s.completed + rows
            && |rows| > 0 && rows[0] == Row(s.currentCheck, what, origin)
            && AllFailedStarts(c, e, rows[1..], s.currentCheck)
            && t.runGeneration == s.runGeneration && NewProcess(s, t)
  {
    var later := LoopRows(c, AddRow(s, what, origin), e);
    var row := Row(s.currentCheck, what, origin);
    rows := [row] + later;
    assert rows[1..] == later && s.completed + [row] + later == s.completed + rows;
  }

  // The flag of a process is its own: down when it starts, up with Overflow.
  predicate FlagKept(s: State, e: Event, t: State) {
    t.process.Up? ==> t.overflowed == (t.process == s.process && (s.overflowed || e == Overflow))
  }

  ghost predicate StepIs(c: Config, s: State, e: Event, t: State, rows: seq<Row>) {
    && t.completed == (if e.Run? then [] else s.completed) + rows && TellsRows(c, s, e, rows)
    && (!e.Run? ==> t.runGeneration == s.runGeneration) && FlagKept(s, e, t)
  }

  // Between checks, or before the first, the index loop goes on.
  lemma StartedIs(c: Config, s: State, e: Event, from: State, t: State, rows: seq<Row>)
    requires OnlyFailedStarts(c, from, t, e, rows) && from.currentCheck >= -1 && !EndsCheck(s, e)
    requires from.process == NotRunning == s.process
    requires from.completed == if e.Run? then [] else s.completed
    requires !e.Run? ==> from.runGeneration == s.runGeneration
    ensures StepIs(c, s, e, t, rows)
  {
  }

  lemma WhatTells(s: State, exit: Exit)
    ensures TellsExit(WhatOf(s, exit), exit, s.overflowed)
  {
  }

  lemma ProcessRows(c: Config, s: State, e: Event, what: What) returns (rows: seq<Row>)
    requires Inv(c, s) && s.process.Up? && EndsCheck(s, e) && !e.Run? && TellsEnd(s, e, what)
    ensures InRange(c, s) && !s.cancelled
    ensures var t := AddAndGoOn(c, s.(timer := false, process := NotRunning), what, s.process.owner, Unstartable(e));
            StepIs(c, s, e, t, rows)
  {
    rows := EndRows(c, s.(timer := false, process := NotRunning), e, what, s.process.owner);
  }

  lemma LaneRows(c: Config, s: State, e: Event) returns (rows: seq<Row>)
    requires Inv(c, s) && e.LaneResult? && Enabled(c, s, e)
    ensures StepIs(c, s, e, Step(c, s, e), rows)
  {
    rows := [];
    if e.lane.generation == s.generation {
      assert s.phase == Checking && e.lane == Owner(s.generation, s.currentCheck);
      rows := EndRows(c, s.(lanes := s.lanes - {e.lane}), e, Findings(e.output), e.lane);
    } else {
      assert s.completed + [] == s.completed;
    }
  }

  lemma CancelRows(c: Config, s: State) returns (rows: seq<Row>)
    requires Inv(c, s) && Enabled(c, s, Cancel)
    ensures StepIs(c, s, Cancel, Step(c, s, Cancel), rows)
  {
    if InRange(c, s) {
      rows := [Row(s.currentCheck, CancelledByUser, Owner(s.generation, s.currentCheck))];
    } else {
      rows := [];
      assert s.completed + [] == s.completed;
    }
  }

  lemma RunRows(c: Config, s: State, e: Event) returns (rows: seq<Row>)
    requires Inv(c, s) && e.Run? && s.runEnabled
    ensures StepIs(c, s, e, Step(c, s, e), rows)
  {
    var t := ResetForRun(s);
    if !e.scoped {
      rows := StartRows(c, t, e);
      StartedIs(c, s, e, t, Step(c, s, e), rows);
    } else if c.isGit {
      rows := [];
    } else {
      var u := t.(git := t.git.(waiters := []));
      ResetIsNotStarted(c, s);
      NewStart([], t.generation);
      assert t.git.waiters + [StartRun(t.generation)] == [] + [StartRun(t.generation)];
      WakeOne(c, u, [] + [StartRun(t.generation)], e.unstartable);
      rows := StartRows(c, u, e);
      StartedIs(c, s, e, u, Step(c, s, e), rows);
    }
  }

  lemma GitRows(c: Config, s: State, e: Event) returns (rows: seq<Row>)
    requires Inv(c, s) && e.GitResult? && Enabled(c, s, e)
    ensures StepIs(c, s, e, Step(c, s, e), rows)
  {
    rows := [];
    assert s.completed + [] == s.completed;
    if e.request == s.git.request {
      var u := s.(git := s.git.(outstanding := s.git.outstanding - {e.request}, inFlight := false, waiters := []));
      if s.phase == WaitingForGit {
        WakeOne(c, u, s.git.waiters, e.unstartable);
        rows := StartRows(c, u, e);
        StartedIs(c, s, e, u, Step(c, s, e), rows);
      } else {
        WakeNone(c, u, s.git.waiters, e.unstartable);
      }
    }
  }

  lemma BaselineRows(c: Config, s: State)
    requires Inv(c, s)
    ensures StepIs(c, s, SinceBaselineToggled, Step(c, s, SinceBaselineToggled), [])
  {
    assert s.completed + [] == s.completed;
    if !c.isGit {
      WakeNone(c, s.(git := s.git.(waiters := [])), s.git.waiters + [Render], {});
    }
  }

  lemma QuietRows(c: Config, s: State, e: Event)
    requires Shaped(c, s) && Enabled(c, s, e) && (e.Overflow? || e.Toggle? || e.AllOn? || e.AllOff?)
    ensures StepIs(c, s, e, Step(c, s, e), [])
  {
    assert s.completed + [] == s.completed;
  }

  lemma TimeoutRows(c: Config, s: State, e: Event) returns (rows: seq<Row>)
    requires Inv(c, s) && e.Timeout? && Enabled(c, s, e)
    ensures StepIs(c, s, e, Step(c, s, e), rows)
  {
    rows := ProcessRows(c, s, e, TimedOut);
  }

  lemma FinishedRows(c: Config, s: State, e: Event) returns (rows: seq<Row>)
    requires Inv(c, s) && e.ProcessFinished? && Enabled(c, s, e)
    ensures StepIs(c, s, e, Step(c, s, e), rows)
  {
    WhatTells(s, e.exit);
    rows := ProcessRows(c, s, e, WhatOf(s, e.exit));
  }

  lemma StepRows(c: Config, s: State, e: Event) returns (rows: seq<Row>)
    requires Inv(c, s) && Enabled(c, s, e)
    ensures StepIs(c, s, e, Step(c, s, e), rows)
  {
    rows := [];
    match e
    case Run(_, _, _) => rows := RunRows(c, s, e);
    case Cancel => rows := CancelRows(c, s);
    case Timeout(_) => rows := TimeoutRows(c, s, e);
    case ProcessFinished(_, _) => rows := FinishedRows(c, s, e);
    case LaneResult(_, _, _) => rows := LaneRows(c, s, e);
    case GitResult(_, _) => rows := GitRows(c, s, e);
    case SinceBaselineToggled => BaselineRows(c, s);
    case _ => QuietRows(c, s, e);
  }

  // --------------------------------------------------------------- whole runs

  // Step m added row j of the report, which still stands at k.
  ghost predicate AddedAt(trace: seq<State>, events: seq<Event>, k: nat, m: nat, j: nat)
    requires |trace| == |events| + 1 && k < |trace|
  {
    && m < k && j < |trace[m + 1].completed| && j < |trace[k].completed|
    && trace[m + 1].completed[j] == trace[k].completed[j]
    && (events[m].Run? || j >= |trace[m].completed|)
    && (forall x | m < x < k :: !events[x].Run?)
  }

  // What step m says of a row it added: its check ended then, as the event
  // tells, or it is a check behind that one whose process did not start.
  ghost predicate TellsRow(c: Config, s: State, e: Event, row: Row) {
    if EndsCheck(s, e) && row.check == s.currentCheck then TellsEnd(s, e, row.what) else TellsFailedStart(c, e, row)
  }

  lemma AddedRowTells(c: Config, s: State, e: Event, t: State, rows: seq<Row>, j: nat)
    requires StepIs(c, s, e, t, rows) && j < |t.completed| && (e.Run? || j >= |s.completed|)
    ensures TellsRow(c, s, e, t.completed[j])
  {
    var before := if e.Run? then [] else s.completed;
    var i := j - |before|;
    assert t.completed[j] == rows[i];
    if EndsCheck(s, e) && i > 0 {
      assert rows[i] == rows[1..][i - 1];
    }
  }

  lemma TraceRows(c: Config, selected: seq<bool>, trace: seq<State>, events: seq<Event>, m: nat)
    returns (rows: seq<Row>)
    requires RunOf(c, selected, trace, events) && m < |events|
    ensures StepIs(c, trace[m], events[m], trace[m + 1], rows)
  {
    Reachable(c, selected, trace, events, m);
    rows := StepRows(c, trace[m], events[m]);
  }

  lemma RowsStay(c: Config, selected: seq<bool>, trace: seq<State>, events: seq<Event>, m: nat)
    requires RunOf(c, selected, trace, events) && m < |events|
    ensures !events[m].Run? ==> trace[m].completed <= trace[m + 1].completed
    ensures FlagKept(trace[m], events[m], trace[m + 1])
  {
    var rows := TraceRows(c, selected, trace, events, m);
  }

  lemma {:induction false} WhenAdded(c: Config, selected: seq<bool>, trace: seq<State>, events: seq<Event>, k: nat,
      j: nat) returns (m: nat)
    requires RunOf(c, selected, trace, events) && k < |trace| && j < |trace[k].completed|
    ensures AddedAt(trace, events, k, m, j)
  {
    assert k > 0;
    if events[k - 1].Run? || j >= |trace[k - 1].completed| {
      m := k - 1;
    } else {
      RowsStay(c, selected, trace, events, k - 1);
      m := WhenAdded(c, selected, trace, events, k - 1, j);
    }
  }

  // The output of the process at m had passed its cap: an overflow came while
  // that same process was up.
  ghost predicate Overflowed(trace: seq<State>, events: seq<Event>, m: nat)
    requires |trace| == |events| + 1 && m < |trace|
  {
    exists o: nat :: o < m && OverflowAt(trace, events, o, m)
  }

  ghost predicate OverflowAt(trace: seq<State>, events: seq<Event>, o: nat, m: nat)
    requires |trace| == |events| + 1 && o < m < |trace|
  {
    events[o] == Overflow && forall x | o <= x <= m :: trace[x].process == trace[m].process
  }

  lemma OverflowedNext(trace: seq<State>, events: seq<Event>, m: nat)
    requires |trace| == |events| + 1 && 0 < m < |trace| && trace[m - 1].process == trace[m].process
    ensures Overflowed(trace, events, m) <==> Overflowed(trace, events, m - 1) || events[m - 1] == Overflow
  {
    if Overflowed(trace, events, m) {
      var o: nat :| o < m && OverflowAt(trace, events, o, m);
      if o < m - 1 {
        assert OverflowAt(trace, events, o, m - 1);
      }
    }
    if Overflowed(trace, events, m - 1) {
      var o: nat :| o < m - 1 && OverflowAt(trace, events, o, m - 1);
      assert OverflowAt(trace, events, o, m);
    }
    if events[m - 1] == Overflow {
      assert OverflowAt(trace, events, m - 1, m);
    }
  }

  lemma {:induction false} FlagTells(c: Config, selected: seq<bool>, trace: seq<State>, events: seq<Event>, m: nat)
    requires RunOf(c, selected, trace, events) && m < |trace| && trace[m].process.Up?
    ensures trace[m].overflowed <==> Overflowed(trace, events, m)
  {
    if m > 0 {
      RowsStay(c, selected, trace, events, m - 1);
      if trace[m].process == trace[m - 1].process {
        FlagTells(c, selected, trace, events, m - 1);
        OverflowedNext(trace, events, m);
      } else {
        forall o: nat | o < m ensures !OverflowAt(trace, events, o, m) {
          assert trace[m - 1].process != trace[m].process;
        }
      }
    }
  }

  // Over every order of events, a row says how its check ended, by the event
  // that made it: its process, with what its output had come to, its time, its
  // lane or the user; or that it did not start.
  lemma RowTells(c: Config, selected: seq<bool>, trace: seq<State>, events: seq<Event>, k: nat, j: nat)
    returns (m: nat)
    requires RunOf(c, selected, trace, events) && k < |trace| && j < |trace[k].completed|
    ensures AddedAt(trace, events, k, m, j) && TellsRow(c, trace[m], events[m], trace[k].completed[j])
    ensures events[m].ProcessFinished? ==> (trace[m].overflowed <==> Overflowed(trace, events, m))
  {
    m := WhenAdded(c, selected, trace, events, k, j);
    var rows := TraceRows(c, selected, trace, events, m);
    AddedRowTells(c, trace[m], events[m], trace[m + 1], rows, j);
    if events[m].ProcessFinished? {
      FlagTells(c, selected, trace, events, m);
    }
  }

  // And every event that ends a check is reported, in the next row.
  lemma EndIsReported(c: Config, selected: seq<bool>, trace: seq<State>, events: seq<Event>, m: nat)
    requires RunOf(c, selected, trace, events) && m < |events| && EndsCheck(trace[m], events[m])
    ensures var next := |trace[m].completed|;
            && next < |trace[m + 1].completed| && trace[m + 1].completed[next].check == trace[m].currentCheck
            && TellsEnd(trace[m], events[m], trace[m + 1].completed[next].what)
  {
    var rows := TraceRows(c, selected, trace, events, m);
  }
}
