/** The audit dialog's run machine: Run, Cancel, the check timeout, process
    and lane results, late git results and the toggles, in any order. A
    generation counter keeps what an older run left behind out of a newer one:
    a lane or a git continuation that comes back with an old generation is
    dropped. The index loop reads each toggle when it gets there, so that the
    state remembers, for the proof, what it read; every event may come in any
    phase in which the dialog takes it. The invariant says for each phase what
    is at work, and what the report holds. */
module Dialog {

  datatype Check = Check(inProcess: bool, available: bool)

  // Who a process or a lane works for: the run and the check.
  datatype Owner = Owner(generation: nat, check: nat)

  datatype What =
    | Findings(output: string)
    | TimedOut
    | FailedToStart
    | OutputTooLarge
    | ToolCrashed(err: string)
    | ToolFailed(err: string)
    | CancelledByUser

  // A row of the report. `origin` is the work that produced it.
  datatype Row = Row(check: nat, what: What, origin: Owner)

  // What the current run is doing. The dialog has no such field; it is
  // readable off its buttons and indices.
  datatype Phase = Idle | WaitingForGit | Checking | Finished | Cancelled

  datatype Process = NotRunning | Up(owner: Owner)

  datatype Waiter = StartRun(generation: nat) | Render

  datatype Git = Git(waiters: seq<Waiter>, inFlight: bool, inFlightLines: bool, request: nat, outstanding: set<nat>)

  datatype State = State(
    selected: seq<bool>,        // the toggles
    currentCheck: int,
    checksRun: nat,
    totalSelected: nat,
    completed: seq<Row>,
    cancelled: bool,
    generation: nat,
    runEnabled: bool,           // Run button and toggles
    cancelVisible: bool,
    process: Process,
    overflowed: bool,
    timer: bool,
    lanes: set<Owner>,          // lane workers still out, of any run
    git: Git,
    phase: Phase,
    runGeneration: nat,         // the generation the current run was given
    runSelected: seq<bool>,     // the toggles when its checks started
    seen: seq<bool>,            // the toggles as its index loop read them
    starts: nat)                // how often its checks were started

  datatype Config = Config(checks: seq<Check>, isGit: bool)

  // ------------------------------------------------------------ specification

  // The first selected check at or after `from`.
  function NextSelected(selected: seq<bool>, from: nat): (k: nat)
    requires from <= |selected|
    ensures from <= k <= |selected|
    ensures k < |selected| ==> selected[k]
    ensures forall j | from <= j < k :: !selected[j]
    decreases |selected| - from
  {
    if from == |selected| || selected[from] then from else NextSelected(selected, from + 1)
  }

  function CountSelected(selected: seq<bool>, k: nat): nat
    requires k <= |selected|
  {
    if k == 0 then 0 else CountSelected(selected, k - 1) + (if selected[k - 1] then 1 else 0)
  }

  predicate Shaped(c: Config, s: State) {
    |s.selected| == |c.checks| && -1 <= s.currentCheck <= |c.checks|
  }

  predicate InRange(c: Config, s: State) {
    0 <= s.currentCheck < |c.checks|
  }

  function FinishRun(s: State): State {
    s.(runEnabled := true, cancelVisible := false)
  }

  function AddRow(s: State, what: What, origin: Owner): State
    requires s.currentCheck >= 0
  {
    s.(completed := s.completed + [Row(s.currentCheck, what, origin)], checksRun := s.checksRun + 1)
  }

  // What the index loop has read when it stops at k.
  function SeenUpTo(s: State, k: nat): seq<bool>
    requires k <= |s.selected| && -1 <= s.currentCheck
  {
    var next := if k < |s.selected| then k + 1 else k;
    if s.currentCheck + 1 <= next then s.seen + s.selected[s.currentCheck + 1..next] else s.seen
  }

  // `unstartable` are the checks whose process does not start this time.
  function RunNextCheck(c: Config, s: State, unstartable: set<nat>): (t: State)
    requires Shaped(c, s)
    ensures Shaped(c, t) && t.selected == s.selected && t.git == s.git
    decreases |c.checks| - s.currentCheck
  {
    if s.cancelled then s
    else
      var k := if s.currentCheck < |c.checks| then NextSelected(s.selected, s.currentCheck + 1) else |c.checks|;
      if FailsToStart(c, k, unstartable) then RunNextCheck(c, AfterFailedStart(s, k), unstartable)
      else StopAt(c, s, k)
  }

  predicate FailsToStart(c: Config, k: nat, unstartable: set<nat>) {
    k < |c.checks| && !c.checks[k].inProcess && k in unstartable
  }

  function AfterFailedStart(s: State, k: nat): State
    requires k <= |s.selected| && -1 <= s.currentCheck
  {
    FailedStart(MovedTo(s, k))
  }

  function MovedTo(s: State, k: nat): State
    requires k <= |s.selected| && -1 <= s.currentCheck
  {
    s.(currentCheck := k, seen := SeenUpTo(s, k))
  }

  function FailedStart(s: State): State
    requires s.currentCheck >= 0
  {
    AddRow(s.(overflowed := false, timer := false), FailedToStart, Owner(s.generation, s.currentCheck))
  }

  // The work of check k starts, or the run ends behind the last check.
  function StopAt(c: Config, s: State, k: nat): State
    requires k <= |c.checks| == |s.selected| && -1 <= s.currentCheck
  {
    if k == |c.checks| then FinishRun(MovedTo(s, k)).(phase := Finished) else StartCheck(c, MovedTo(s, k))
  }

  // The current check goes to a lane, or to the process.
  function StartCheck(c: Config, s: State): State
    requires InRange(c, s)
  {
    var owner := Owner(s.generation, s.currentCheck);
    if c.checks[s.currentCheck].inProcess then s.(lanes := s.lanes + {owner})
    else s.(overflowed := false, timer := true, process := Up(owner))
  }

  function StartSelectedChecks(c: Config, s: State, unstartable: set<nat>): (t: State)
    requires Shaped(c, s)
    ensures Shaped(c, t) && t.selected == s.selected && t.git == s.git
  {
    var total := CountSelected(s.selected, |s.selected|);
    if total == 0 then s.(totalSelected := 0, starts := s.starts + 1, phase := Idle)
    else RunNextCheck(c, QueueChecks(s, total), unstartable)
  }

  function QueueChecks(s: State, total: nat): State {
    s.(totalSelected := total, starts := s.starts + 1, checksRun := 0, currentCheck := -1, runEnabled := false,
       phase := Checking, runSelected := s.selected, seen := [])
  }

  // The continuations that wait for a git result, in the order they came. A
  // run's continuation starts its checks if no newer run or cancel came since.
  function WakeAll(c: Config, s: State, waiters: seq<Waiter>, unstartable: set<nat>): (t: State)
    requires Shaped(c, s)
    ensures Shaped(c, t) && t.selected == s.selected && t.git == s.git
    decreases |waiters|
  {
    if waiters == [] then s
    else if waiters[0] == StartRun(s.generation) then
      WakeAll(c, StartSelectedChecks(c, s, unstartable), waiters[1..], unstartable)
    else WakeAll(c, s, waiters[1..], unstartable)
  }

  function RequestRecentChangeSets(c: Config, s: State, lines: bool, waiter: Waiter, unstartable: set<nat>): (t: State)
    requires Shaped(c, s)
    ensures Shaped(c, t)
  {
    var waiters := s.git.waiters + [waiter];
    if !c.isGit then WakeAll(c, s.(git := s.git.(waiters := [])), waiters, unstartable)
    else if s.git.inFlight && (s.git.inFlightLines || !lines) then s.(git := s.git.(waiters := waiters))
    else
      var request := s.git.request + 1;
      s.(git := Git(waiters, true, lines, request, s.git.outstanding + {request}))
  }

  datatype Exit = Exit(crash: bool, code: int, out: string, err: string)

  datatype Event =
    | Run(scoped: bool, lines: bool, unstartable: set<nat>)
    | Cancel
    | Timeout(unstartable: set<nat>)
    | Overflow
    | ProcessFinished(exit: Exit, unstartable: set<nat>)
    | LaneResult(lane: Owner, output: string, unstartable: set<nat>)
    | GitResult(request: nat, unstartable: set<nat>)
    | SinceBaselineToggled
    | Toggle(check: nat, on: bool)
    | AllOn
    | AllOff

  function ResetForRun(s: State): State {
    s.(completed := [], cancelled := false, generation := s.generation + 1, currentCheck := -1, checksRun := 0,
       totalSelected := 0, cancelVisible := true, phase := WaitingForGit, runGeneration := s.generation + 1,
           seen := [], starts := 0)
  }

  function RunAudit(c: Config, s: State, scoped: bool, lines: bool, unstartable: set<nat>): (t: State)
    requires Shaped(c, s)
    ensures Shaped(c, t)
  {
    var t := ResetForRun(s);
    if scoped then RequestRecentChangeSets(c, t, lines, StartRun(t.generation), unstartable)
    else StartSelectedChecks(c, t, unstartable)
  }

  function CancelAudit(c: Config, s: State): (t: State)
    requires Shaped(c, s)
    ensures Shaped(c, t)
  {
    if s.cancelled then s
    else
      var t := s.(cancelled := true, generation := s.generation + 1, timer := false, process := NotRunning,
          phase := Cancelled);
      FinishRun(if InRange(c, s)
                then t.(completed := s.completed + [Row(s.currentCheck, CancelledByUser,
                    Owner(s.generation, s.currentCheck))])
                else t)
  }

  function AddAndGoOn(c: Config, s: State, what: What, origin: Owner, unstartable: set<nat>): (t: State)
    requires Shaped(c, s) && InRange(c, s)
    ensures Shaped(c, t)
  {
    RunNextCheck(c, AddRow(s, what, origin), unstartable)
  }

  function HandleCheckOutput(c: Config, s: State, output: string, origin: Owner, unstartable: set<nat>): (t: State)
    requires Shaped(c, s)
    ensures Shaped(c, t)
  {
    if s.cancelled || !InRange(c, s) then s
    else AddAndGoOn(c, s, Findings(output), origin, unstartable)
  }

  function WhatOf(s: State, exit: Exit): What {
    if s.overflowed then OutputTooLarge
    else if exit.crash then ToolCrashed(exit.err)
    else if exit.code != 0 && exit.out == "" && exit.err != "" then ToolFailed(exit.err)
    else Findings(Merged(exit.out, exit.err))
  }

  // Both channels are trimmed here; stderr joins a non-empty stdout.
  function Merged(out: string, err: string): string {
    if out == "" then err else if err != "" then out + "\n" + err else out
  }

  function OnCheckFinished(c: Config, s: State, exit: Exit, unstartable: set<nat>): (t: State)
    requires Shaped(c, s) && s.process.Up?
    ensures Shaped(c, t)
  {
    var t := s.(timer := false, process := NotRunning);
    if s.cancelled || !InRange(c, s) then t else AddAndGoOn(c, t, WhatOf(s, exit), s.process.owner, unstartable)
  }

  function OnTimeout(c: Config, s: State, unstartable: set<nat>): (t: State)
    requires Shaped(c, s)
    ensures Shaped(c, t)
  {
    var t := s.(timer := false, process := NotRunning);
    if s.process == NotRunning then t
    else if InRange(c, s) then AddAndGoOn(c, t, TimedOut, s.process.owner, unstartable)
    else RunNextCheck(c, t.(checksRun := t.checksRun + 1), unstartable)
  }

  function OnLaneResult(c: Config, s: State, lane: Owner, output: string, unstartable: set<nat>): (t: State)
    requires Shaped(c, s)
    ensures Shaped(c, t)
  {
    var t := s.(lanes := s.lanes - {lane});
    if lane.generation != s.generation then t
    else HandleCheckOutput(c, t, output, lane, unstartable)
  }

  function OnGitResult(c: Config, s: State, request: nat, unstartable: set<nat>): (t: State)
    requires Shaped(c, s)
    ensures Shaped(c, t)
  {
    var t := s.(git := s.git.(outstanding := s.git.outstanding - {request}));
    if request != s.git.request then t
    else WakeAll(c, t.(git := t.git.(inFlight := false, waiters := [])), s.git.waiters, unstartable)
  }

  // The two bulk buttons, which nothing disables.
  function TurnAllOn(c: Config, selected: seq<bool>): (r: seq<bool>)
    requires |selected| == |c.checks|
    ensures |r| == |selected|
  {
    seq(|selected|, k requires 0 <= k < |selected| => selected[k] || c.checks[k].available)
  }

  function TurnAllOff(selected: seq<bool>): (r: seq<bool>)
    ensures |r| == |selected|
  {
    seq(|selected|, _ => false)
  }

  predicate Enabled(c: Config, s: State, e: Event) {
    match e
    case Run(_, _, _) => s.runEnabled
    case Cancel => s.cancelVisible
    case Timeout(_) => s.timer
    case Overflow => s.process.Up?
    case ProcessFinished(_, _) => s.process.Up?
    case LaneResult(lane, _, _) => lane in s.lanes
    case GitResult(request, _) => request in s.git.outstanding
    case SinceBaselineToggled => true
    case Toggle(k, _) => s.runEnabled && k < |c.checks| && c.checks[k].available
    case AllOn => true
    case AllOff => true
  }

  function Step(c: Config, s: State, e: Event): (t: State)
    requires Shaped(c, s) && Enabled(c, s, e)
    ensures Shaped(c, t)
  {
    match e
    case Run(scoped, lines, unstartable) => RunAudit(c, s, scoped, lines, unstartable)
    case Cancel => CancelAudit(c, s)
    case Timeout(unstartable) => OnTimeout(c, s, unstartable)
    case Overflow => s.(overflowed := true)
    case ProcessFinished(exit, unstartable) => OnCheckFinished(c, s, exit, unstartable)
    case LaneResult(lane, output, unstartable) => OnLaneResult(c, s, lane, output, unstartable)
    case GitResult(request, unstartable) => OnGitResult(c, s, request, unstartable)
    case SinceBaselineToggled => RequestRecentChangeSets(c, s, true, Render, {})
    case Toggle(k, on) => s.(selected := s.selected[k := on])
    case AllOn => s.(selected := TurnAllOn(c, s.selected))
    case AllOff => s.(selected := TurnAllOff(s.selected))
  }

  function Initial(selected: seq<bool>): State {
    State(selected, -1, 0, 0, [], false, 0, true, false, NotRunning, false, false, {},
          Git([], false, false, 0, {}), Idle, 0, selected, [], 0)
  }

  ghost predicate RunOf(c: Config, selected: seq<bool>, trace: seq<State>, events: seq<Event>) {
    && |selected| == |c.checks|
    && |trace| == |events| + 1 && trace[0] == Initial(selected)
    && forall k | 0 <= k < |events| ::
      Shaped(c, trace[k]) && Enabled(c, trace[k], events[k]) && trace[k + 1] == Step(c, trace[k], events[k])
  }

  // ---------------------------------------------------------------- invariant

  // The selected checks below k, in catalogue order.
  function SelectedBelow(selected: seq<bool>, k: nat): seq<nat>
    requires k <= |selected|
  {
    if k == 0 then [] else SelectedBelow(selected, k - 1) + (if selected[k - 1] then [k - 1] else [])
  }

  function ChecksOf(rows: seq<Row>): seq<nat> {
    seq(|rows|, k requires 0 <= k < |rows| => rows[k].check)
  }

  // Every row was produced by work of run g on the row's own check.
  ghost predicate OwnWork(rows: seq<Row>, g: nat) {
    forall k | 0 <= k < |rows| :: rows[k].origin == Owner(g, rows[k].check)
  }

  // The report holds the selected checks below k, once each, and is counted.
  ghost predicate Reported(selected: seq<bool>, k: nat, rows: seq<Row>, checksRun: nat) {
    && k <= |selected| && ChecksOf(rows) == SelectedBelow(selected, k) && checksRun == |rows|
    && forall j | 0 <= j < |rows| :: rows[j].what != CancelledByUser
  }

  ghost predicate NoLane(s: State) {
    forall lane | lane in s.lanes :: lane.generation < s.generation
  }

  ghost predicate NoStart(waiters: seq<Waiter>, g: nat) {
    forall k | 0 <= k < |waiters| :: waiters[k].StartRun? ==> waiters[k].generation < g
  }

  // One continuation, the last start requested, is this run's.
  ghost predicate OneStart(waiters: seq<Waiter>, g: nat) {
    exists k | 0 <= k < |waiters| ::
      waiters[k] == StartRun(g) && NoStart(waiters[..k], g) && NoStart(waiters[k + 1..], g)
  }

  // The checks of the run were started, once.
  ghost predicate Started(c: Config, s: State) {
    && s.starts == 1 && s.runGeneration == s.generation
    && |s.runSelected| == |c.checks| && s.totalSelected == CountSelected(s.runSelected, |s.runSelected|)
  }

  // Between checks: everything up to the current index is reported.
  ghost predicate Between(c: Config, s: State) {
    && Shaped(c, s) && s.currentCheck < |c.checks|
    && !s.cancelled && s.phase == Checking && !s.runEnabled && s.cancelVisible
    && s.process == NotRunning && NoLane(s)
    && Started(c, s) && |s.seen| == s.currentCheck + 1
    && Reported(s.seen, |s.seen|, s.completed, s.checksRun)
    && OwnWork(s.completed, s.generation)
  }

  // The current check is the next to report.
  ghost predicate AtCheck(c: Config, s: State) {
    && Shaped(c, s) && InRange(c, s)
    && !s.cancelled && !s.runEnabled && s.cancelVisible
    && Started(c, s) && |s.seen| == s.currentCheck + 1 && s.seen[s.currentCheck]
    && Reported(s.seen, s.currentCheck, s.completed, s.checksRun)
    && OwnWork(s.completed, s.generation)
  }

  // A check is at work: its process or its lane, and nothing else of this run.
  ghost predicate AtWork(c: Config, s: State) {
    && AtCheck(c, s)
    && var me := Owner(s.generation, s.currentCheck);
    && (if c.checks[s.currentCheck].inProcess then s.process == NotRunning && me in s.lanes
        else s.process == Up(me) && s.timer)
    && (forall lane | lane in s.lanes :: lane.generation < s.generation
         || (lane == me && c.checks[s.currentCheck].inProcess))
  }

  ghost predicate AllDone(c: Config, s: State) {
    && s.currentCheck == |s.seen| == |c.checks|
    && !s.cancelled && s.runEnabled && !s.cancelVisible && s.process == NotRunning && NoLane(s)
    && Started(c, s) && Reported(s.seen, |s.seen|, s.completed, s.checksRun)
    && OwnWork(s.completed, s.generation)
  }

  ghost predicate NotStarted(s: State) {
    && s.currentCheck == -1 && s.completed == [] && s.seen == [] && s.checksRun == 0
    && !s.cancelled && s.runEnabled && s.process == NotRunning && NoLane(s) && s.runGeneration == s.generation
  }

  // The rows of a cancelled run: what was reported, then the sentinel.
  ghost predicate CutShort(c: Config, s: State) {
    && s.cancelled && s.runEnabled && !s.cancelVisible && s.process == NotRunning && NoLane(s)
    && s.generation == s.runGeneration + 1 && s.starts <= 1 && !s.timer
    && OwnWork(s.completed, s.runGeneration)
    && if InRange(c, s)
       then |s.completed| > 0 && |s.seen| == s.currentCheck + 1
         && s.completed[|s.completed| - 1].what == CancelledByUser
         && s.completed[|s.completed| - 1].check == s.currentCheck
         && Reported(s.seen, s.currentCheck, s.completed[..|s.completed| - 1], s.checksRun)
       else s.currentCheck == -1 && s.seen == [] && s.completed == [] && s.checksRun == 0
  }

  ghost predicate PhaseInv(c: Config, s: State) {
    match s.phase
    case Idle => NotStarted(s) && s.starts <= 1
    case WaitingForGit => NotStarted(s) && s.starts == 0 && s.cancelVisible
    case Checking => AtWork(c, s)
    case Finished => AllDone(c, s)
    case Cancelled => CutShort(c, s)
  }

  ghost predicate GitInv(c: Config, s: State) {
    && (c.isGit || s.git.waiters == [])
    && (s.git.waiters != [] ==> s.git.inFlight)
    && (s.git.inFlight ==> s.git.request in s.git.outstanding)
    && (forall r | r in s.git.outstanding :: r <= s.git.request)
    && (if s.phase == WaitingForGit then OneStart(s.git.waiters, s.generation)
         else NoStart(s.git.waiters, s.generation))
  }

  ghost predicate Inv(c: Config, s: State) {
    Shaped(c, s) && PhaseInv(c, s) && GitInv(c, s) && (s.timer ==> s.process.Up?)
  }

  // ------------------------------------------------------------------- proofs

  // Only the toggles below k matter.
  lemma {:induction false} BelowOfPrefix(a: seq<bool>, b: seq<bool>, k: nat)
    requires k <= |a| && k <= |b| && a[..k] == b[..k]
    ensures SelectedBelow(a, k) == SelectedBelow(b, k)
  {
    if k > 0 {
      assert a[k - 1] == a[..k][k - 1] == b[k - 1];
      assert a[..k - 1] == a[..k][..k - 1] == b[..k][..k - 1] == b[..k - 1];
      BelowOfPrefix(a, b, k - 1);
    }
  }

  lemma {:induction false} CountIsLength(selected: seq<bool>, k: nat)
    requires k <= |selected|
    ensures |SelectedBelow(selected, k)| == CountSelected(selected, k)
  {
    if k > 0 {
      CountIsLength(selected, k - 1);
    }
  }

  // Unselected checks add nothing.
  lemma {:induction false} SkipUnselected(selected: seq<bool>, from: nat, k: nat)
    requires from <= k <= |selected| && forall j | from <= j < k :: !selected[j]
    ensures SelectedBelow(selected, k) == SelectedBelow(selected, from)
    decreases k
  {
    if from < k {
      SkipUnselected(selected, from, k - 1);
    }
  }

  lemma ReportSkips(seen: seq<bool>, now: seq<bool>, k: nat, rows: seq<Row>, checksRun: nat)
    requires Reported(seen, |seen|, rows, checksRun)
    requires |seen| <= k <= |now| && seen == now[..|seen|] && forall j | |seen| <= j < k :: !now[j]
    ensures Reported(now, k, rows, checksRun)
  {
    BelowOfPrefix(seen, now, |seen|);
    SkipUnselected(now, |seen|, k);
  }

  lemma ReportGrows(selected: seq<bool>, k: nat, rows: seq<Row>, checksRun: nat, row: Row)
    requires Reported(selected, k, rows, checksRun) && k < |selected| && selected[k]
    requires row.check == k && row.what != CancelledByUser
    ensures Reported(selected, k + 1, rows + [row], checksRun + 1)
  {
    assert ChecksOf(rows + [row]) == ChecksOf(rows) + [k];
  }

  // Between checks, with check k the next selected one.
  ghost predicate AboutTo(c: Config, s: State, k: nat) {
    && Between(c, s) && !s.timer && s.currentCheck < k <= |c.checks|
    && (forall j | s.currentCheck < j < k :: !s.selected[j])
    && (k < |c.checks| ==> s.selected[k])
  }

  lemma ReachesNext(c: Config, s: State, k: nat)
    requires AboutTo(c, s, k)
    ensures var seen := SeenUpTo(s, k);
            Reported(seen, k, s.completed, s.checksRun)
                && (if k < |c.checks| then |seen| == k + 1 && seen[k] else |seen| == k)
  {
    ReportSkips(s.seen, SeenUpTo(s, k), k, s.completed, s.checksRun);
  }

  lemma LaunchIsAtWork(c: Config, s: State, k: nat)
    requires AboutTo(c, s, k) && k < |c.checks|
    ensures AtWork(c, StartCheck(c, MovedTo(s, k)))
  {
    ReachesNext(c, s, k);
  }

  lemma FailedStartGoesOn(c: Config, s: State, k: nat, unstartable: set<nat>)
    requires Shaped(c, s) && !s.cancelled && s.currentCheck < |c.checks|
    requires k == NextSelected(s.selected, s.currentCheck + 1) && FailsToStart(c, k, unstartable)
    ensures RunNextCheck(c, s, unstartable) == RunNextCheck(c, AfterFailedStart(s, k), unstartable)
  {
  }

  lemma FailedStartIsBetween(c: Config, s: State, k: nat)
    requires AboutTo(c, s, k) && k < |c.checks|
    ensures Between(c, AfterFailedStart(s, k)) && !AfterFailedStart(s, k).timer
            && AfterFailedStart(s, k).generation == s.generation
  {
    var row := Row(k, FailedToStart, Owner(s.generation, k));
    ReachesNext(c, s, k);
    ReportGrows(SeenUpTo(s, k), k, s.completed, s.checksRun, row);
  }

  lemma LastCheckIsDone(c: Config, s: State)
    requires AboutTo(c, s, |c.checks|)
    ensures AllDone(c, FinishRun(MovedTo(s, |c.checks|)).(phase := Finished))
  {
    ReachesNext(c, s, |c.checks|);
  }

  // States of run g that wait for no git result: a check is at work, or all
  // are done, or none was selected.
  ghost predicate Settled(c: Config, g: nat, t: State) {
    PhaseInv(c, t) && t.phase != WaitingForGit && t.generation == g && (t.timer ==> t.process.Up?)
  }

  lemma NextCheckStarts(c: Config, s: State, k: nat, unstartable: set<nat>)
    requires AboutTo(c, s, k) && k == NextSelected(s.selected, s.currentCheck + 1) && !FailsToStart(c, k, unstartable)
    ensures Settled(c, s.generation, RunNextCheck(c, s, unstartable))
  {
    if k == |c.checks| {
      LastCheckIsDone(c, s);
    } else {
      LaunchIsAtWork(c, s, k);
    }
  }

  // Between two checks, the next selected one starts, or the run is over.
  lemma {:induction false} NextCheckOrDone(c: Config, s: State, unstartable: set<nat>)
    requires Between(c, s) && !s.timer
    ensures Settled(c, s.generation, RunNextCheck(c, s, unstartable))
    decreases |c.checks| - s.currentCheck
  {
    var k := NextSelected(s.selected, s.currentCheck + 1);
    assert AboutTo(c, s, k);
    if FailsToStart(c, k, unstartable) {
      var u := AfterFailedStart(s, k);
      FailedStartIsBetween(c, s, k);
      FailedStartGoesOn(c, s, k, unstartable);
      NextCheckOrDone(c, u, unstartable);
    } else {
      NextCheckStarts(c, s, k, unstartable);
    }
  }

  // The check at work reports and the run goes on.
  lemma ReportAndGoOn(c: Config, s: State, what: What, unstartable: set<nat>)
    requires AtCheck(c, s) && s.phase == Checking && s.process == NotRunning && !s.timer && NoLane(s)
    requires what != CancelledByUser
    ensures var t := AddAndGoOn(c, s, what, Owner(s.generation, s.currentCheck), unstartable);
            Settled(c, s.generation, t) && t.git == s.git
  {
    var origin := Owner(s.generation, s.currentCheck);
    ReportGrows(s.seen, s.currentCheck, s.completed, s.checksRun, Row(s.currentCheck, what, origin));
    assert Between(c, AddRow(s, what, origin));
    NextCheckOrDone(c, AddRow(s, what, origin), unstartable);
  }

  lemma {:induction false} WakeNone(c: Config, s: State, waiters: seq<Waiter>, unstartable: set<nat>)
    requires Shaped(c, s) && NoStart(waiters, s.generation)
    ensures WakeAll(c, s, waiters, unstartable) == s
    decreases |waiters|
  {
    if waiters != [] {
      WakeNone(c, s, waiters[1..], unstartable);
    }
  }

  lemma StartKeepsGeneration(c: Config, s: State, unstartable: set<nat>)
    requires Shaped(c, s)
    ensures StartSelectedChecks(c, s, unstartable).generation == s.generation
  {
    RunKeepsGeneration(c, QueueChecks(s, CountSelected(s.selected, |s.selected|)), unstartable);
  }

  lemma {:induction false} RunKeepsGeneration(c: Config, s: State, unstartable: set<nat>)
    requires Shaped(c, s)
    ensures RunNextCheck(c, s, unstartable).generation == s.generation
    decreases |c.checks| - s.currentCheck
  {
    if !s.cancelled && s.currentCheck < |c.checks| {
      var k := NextSelected(s.selected, s.currentCheck + 1);
      if FailsToStart(c, k, unstartable) {
        RunKeepsGeneration(c, AfterFailedStart(s, k), unstartable);
      }
    }
  }

  // However many continuations wait, this run's checks start once.
  lemma {:induction false} WakeOne(c: Config, s: State, waiters: seq<Waiter>, unstartable: set<nat>)
    requires Shaped(c, s) && OneStart(waiters, s.generation)
    ensures WakeAll(c, s, waiters, unstartable) == StartSelectedChecks(c, s, unstartable)
    decreases |waiters|
  {
    var k :| 0 <= k < |waiters| && waiters[k] == StartRun(s.generation)
      && NoStart(waiters[..k], s.generation) && NoStart(waiters[k + 1..], s.generation);
    if k == 0 {
      StartKeepsGeneration(c, s, unstartable);
      WakeNone(c, StartSelectedChecks(c, s, unstartable), waiters[1..], unstartable);
    } else {
      assert waiters[..k][0] == waiters[0];
      var rest := waiters[1..];
      assert rest[..k - 1] == waiters[..k][1..] && rest[k..] == waiters[k + 1..];
      assert rest[k - 1] == StartRun(s.generation) && NoStart(rest[..k - 1], s.generation)
          && NoStart(rest[k - 1 + 1..], s.generation);
      WakeOne(c, s, rest, unstartable);
    }
  }

  // Starting the checks of a run that waited.
  lemma StartedRun(c: Config, s: State, unstartable: set<nat>)
    requires Shaped(c, s) && NotStarted(s) && s.starts == 0 && s.cancelVisible && !s.timer
    ensures var t := StartSelectedChecks(c, s, unstartable);
            Settled(c, s.generation, t)
  {
    var total := CountSelected(s.selected, |s.selected|);
    if total > 0 {
      var u := QueueChecks(s, total);
      assert ChecksOf(u.completed) == SelectedBelow(u.seen, 0);
      assert Between(c, u);
      NextCheckOrDone(c, u, unstartable);
    }
  }

  lemma NoStartAppend(waiters: seq<Waiter>, waiter: Waiter, g: nat)
    requires NoStart(waiters, g) && (waiter.StartRun? ==> waiter.generation < g)
    ensures NoStart(waiters + [waiter], g)
  {
  }

  lemma OneStartAppend(waiters: seq<Waiter>, g: nat)
    requires OneStart(waiters, g)
    ensures OneStart(waiters + [Render], g)
  {
    var k :| 0 <= k < |waiters| && waiters[k] == StartRun(g) && NoStart(waiters[..k], g)
        && NoStart(waiters[k + 1..], g);
    var w := waiters + [Render];
    assert w[..k] == waiters[..k] && w[k + 1..] == waiters[k + 1..] + [Render];
    assert w[k] == StartRun(g) && NoStart(w[..k], g) && NoStart(w[k + 1..], g);
  }

  lemma NewStart(waiters: seq<Waiter>, g: nat)
    requires NoStart(waiters, g)
    ensures OneStart(waiters + [StartRun(g)], g)
  {
    var w := waiters + [StartRun(g)];
    assert w[..|waiters|] == waiters && w[|waiters| + 1..] == [];
    assert w[|waiters|] == StartRun(g) && NoStart(w[..|waiters|], g) && NoStart(w[|waiters| + 1..], g);
  }

  lemma OlderStarts(c: Config, s: State, g: nat)
    requires Inv(c, s) && g > s.generation
    ensures NoStart(s.git.waiters, g)
  {
    if s.phase == WaitingForGit {
      var w := s.git.waiters;
      var k :| 0 <= k < |w| && w[k] == StartRun(s.generation) && NoStart(w[..k], s.generation)
          && NoStart(w[k + 1..], s.generation);
      forall j | 0 <= j < |w| ensures w[j].StartRun? ==> w[j].generation < g {
        if j < k { assert w[..k][j] == w[j]; } else if j > k { assert w[k + 1..][j - k - 1] == w[j]; }
      }
    }
  }

  // A run that has waited for nothing yet.
  lemma ResetIsNotStarted(c: Config, s: State)
    requires Inv(c, s) && s.runEnabled
    ensures var t := ResetForRun(s);
            Shaped(c, t) && NotStarted(t) && t.starts == 0 && t.cancelVisible && !t.timer
            && t.phase == WaitingForGit && NoStart(t.git.waiters, t.generation) && GitInv(c, t.(phase := Idle))
  {
    OlderStarts(c, s, s.generation + 1);
  }

  lemma StartedRunKeepsInv(c: Config, s: State, unstartable: set<nat>)
    requires Shaped(c, s) && NotStarted(s) && s.starts == 0 && s.cancelVisible && !s.timer
    requires NoStart(s.git.waiters, s.generation) && GitInv(c, s.(phase := Idle))
    ensures Inv(c, StartSelectedChecks(c, s, unstartable))
  {
    StartedRun(c, s, unstartable);
  }

  lemma QueuedRunKeepsInv(c: Config, t: State, lines: bool, unstartable: set<nat>)
    requires Shaped(c, t) && NotStarted(t) && t.starts == 0 && t.cancelVisible && !t.timer && t.phase == WaitingForGit
    requires c.isGit && NoStart(t.git.waiters, t.generation) && GitInv(c, t.(phase := Idle))
    ensures Inv(c, RequestRecentChangeSets(c, t, lines, StartRun(t.generation), unstartable))
  {
    NewStart(t.git.waiters, t.generation);
  }

  lemma NoGitRunKeepsInv(c: Config, t: State, lines: bool, unstartable: set<nat>)
    requires Shaped(c, t) && NotStarted(t) && t.starts == 0 && t.cancelVisible && !t.timer
    requires !c.isGit && GitInv(c, t.(phase := Idle))
    ensures Inv(c, RequestRecentChangeSets(c, t, lines, StartRun(t.generation), unstartable))
  {
    var u := t.(git := t.git.(waiters := []));
    NewStart([], t.generation);
    assert t.git.waiters + [StartRun(t.generation)] == [StartRun(t.generation)] == [] + [StartRun(t.generation)];
    WakeOne(c, u, [StartRun(t.generation)], unstartable);
    StartedRunKeepsInv(c, u, unstartable);
  }

  lemma RunKeepsInv(c: Config, s: State, scoped: bool, lines: bool, unstartable: set<nat>)
    requires Inv(c, s) && s.runEnabled
    ensures Inv(c, RunAudit(c, s, scoped, lines, unstartable))
  {
    ResetIsNotStarted(c, s);
    if !scoped {
      StartedRunKeepsInv(c, ResetForRun(s), unstartable);
    } else if c.isGit {
      QueuedRunKeepsInv(c, ResetForRun(s), lines, unstartable);
    } else {
      NoGitRunKeepsInv(c, ResetForRun(s), lines, unstartable);
    }
  }

  lemma CancelKeepsInv(c: Config, s: State)
    requires Inv(c, s) && s.cancelVisible
    ensures Inv(c, CancelAudit(c, s))
  {
    if s.phase == Checking {
      CancelAtWork(c, s);
    } else {
      CancelBeforeStart(c, s);
    }
    CancelledGit(c, s);
  }

  lemma CancelledGit(c: Config, s: State)
    requires Inv(c, s) && !s.cancelled
    ensures GitInv(c, CancelAudit(c, s))
  {
    OlderStarts(c, s, s.generation + 1);
  }

  lemma CancelBeforeStart(c: Config, s: State)
    requires Shaped(c, s) && NotStarted(s) && s.starts <= 1
    ensures CutShort(c, CancelAudit(c, s))
  {
  }

  lemma CancelAtWork(c: Config, s: State)
    requires AtWork(c, s)
    ensures CutShort(c, CancelAudit(c, s))
  {
    var sentinel := Row(s.currentCheck, CancelledByUser, Owner(s.generation, s.currentCheck));
    assert (s.completed + [sentinel])[..|s.completed|] == s.completed;
  }

  lemma ProcessKeepsInv(c: Config, s: State, what: What, unstartable: set<nat>)
    requires Inv(c, s) && s.process.Up? && what != CancelledByUser
    ensures InRange(c, s) && !s.cancelled && s.process.owner == Owner(s.generation, s.currentCheck)
    ensures Inv(c, AddAndGoOn(c, s.(timer := false, process := NotRunning), what, s.process.owner, unstartable))
  {
    ReportAndGoOn(c, s.(timer := false, process := NotRunning), what, unstartable);
  }

  // No toggle is part of the invariant, so any of them may change at any time.
  lemma ToggleKeepsInv(c: Config, s: State, selected: seq<bool>)
    requires Inv(c, s) && |selected| == |s.selected|
    ensures Inv(c, s.(selected := selected))
  {
  }

  lemma LaneKeepsInv(c: Config, s: State, lane: Owner, output: string, unstartable: set<nat>)
    requires Inv(c, s) && lane in s.lanes
    ensures Inv(c, OnLaneResult(c, s, lane, output, unstartable))
  {
    if lane.generation == s.generation {
      assert s.phase == Checking && lane == Owner(s.generation, s.currentCheck);
      ReportAndGoOn(c, s.(lanes := s.lanes - {lane}), Findings(output), unstartable);
    }
  }

  lemma GitKeepsInv(c: Config, s: State, request: nat, unstartable: set<nat>)
    requires Inv(c, s) && request in s.git.outstanding
    ensures Inv(c, OnGitResult(c, s, request, unstartable))
  {
    var t := s.(git := s.git.(outstanding := s.git.outstanding - {request}));
    if request == s.git.request {
      var u := t.(git := t.git.(inFlight := false, waiters := []));
      if s.phase == WaitingForGit {
        WakeOne(c, u, s.git.waiters, unstartable);
        StartedRun(c, u, unstartable);
      } else {
        WakeNone(c, u, s.git.waiters, unstartable);
      }
    }
  }

  lemma ToggledKeepsInv(c: Config, s: State)
    requires Inv(c, s)
    ensures Inv(c, Step(c, s, SinceBaselineToggled))
  {
    if !c.isGit {
      assert s.git.waiters + [Render] == [Render];
      WakeNone(c, s.(git := s.git.(waiters := [])), [Render], {});
      WithGit(c, s, s.git.(waiters := []));
    } else {
      RenderWaits(c, s);
      WithGit(c, s, RequestRecentChangeSets(c, s, true, Render, {}).git);
    }
  }

  lemma RenderWaits(c: Config, s: State)
    requires Inv(c, s) && c.isGit
    ensures GitInv(c, RequestRecentChangeSets(c, s, true, Render, {}))
  {
    if s.phase == WaitingForGit {
      OneStartAppend(s.git.waiters, s.generation);
    } else {
      NoStartAppend(s.git.waiters, Render, s.generation);
    }
  }

  lemma WithGit(c: Config, s: State, git: Git)
    requires Inv(c, s) && GitInv(c, s.(git := git))
    ensures Inv(c, s.(git := git))
  {
  }

  lemma StepKeepsInv(c: Config, s: State, e: Event)
    requires Inv(c, s) && Enabled(c, s, e)
    ensures Inv(c, Step(c, s, e))
  {
    match e
    case Run(scoped, lines, unstartable) => RunKeepsInv(c, s, scoped, lines, unstartable);
    case Cancel => CancelKeepsInv(c, s);
    case Timeout(unstartable) => ProcessKeepsInv(c, s, TimedOut, unstartable);
    case Overflow =>
    case ProcessFinished(exit, unstartable) => ProcessKeepsInv(c, s, WhatOf(s, exit), unstartable);
    case LaneResult(lane, output, unstartable) => LaneKeepsInv(c, s, lane, output, unstartable);
    case GitResult(request, unstartable) => GitKeepsInv(c, s, request, unstartable);
    case SinceBaselineToggled => ToggledKeepsInv(c, s);
    case Toggle(k, on) => ToggleKeepsInv(c, s, s.selected[k := on]);
    case AllOn => ToggleKeepsInv(c, s, TurnAllOn(c, s.selected));
    case AllOff => ToggleKeepsInv(c, s, TurnAllOff(s.selected));
  }

  lemma {:induction false} Reachable(c: Config, selected: seq<bool>, trace: seq<State>, events: seq<Event>, k: nat)
    requires RunOf(c, selected, trace, events) && k < |trace|
    ensures Inv(c, trace[k])
  {
    if k > 0 {
      Reachable(c, selected, trace, events, k - 1);
      StepKeepsInv(c, trace[k - 1], events[k - 1]);
    }
  }
}
