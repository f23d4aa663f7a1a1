/** The dialog itself: the slots that update its fields, each proved to do
    what the function of the same name says. */
module DialogSlots {
  import opened Dialog

  class AuditDialog {
    const config: Config
    var selected: seq<bool>
    var currentCheck: int
    var checksRun: nat
    var totalSelected: nat
    var completed: seq<Row>
    var cancelled: bool
    var generation: nat
    var runEnabled: bool
    var cancelVisible: bool
    var process: Process
    var overflowed: bool
    var timer: bool
    var lanes: set<Owner>
    var git: Git
    ghost var phase: Phase
    ghost var runGeneration: nat
    ghost var runSelected: seq<bool>
    ghost var seen: seq<bool>
    ghost var starts: nat

    ghost function Abs(): State
      reads this
    {
      State(selected, currentCheck, checksRun, totalSelected, completed, cancelled, generation, runEnabled,
          cancelVisible, process, overflowed, timer, lanes, git, phase, runGeneration, runSelected, seen, starts)
    }

    ghost predicate Valid()
      reads this
    {
      Shaped(config, Abs())
    }

    constructor (config: Config, selected: seq<bool>)
      requires |selected| == |config.checks|
      ensures this.config == config && Valid() && Abs() == Initial(selected)
    {
      this.config := config;
      this.selected, currentCheck, checksRun, totalSelected, completed := selected, -1, 0, 0, [];
      cancelled, generation, runEnabled, cancelVisible := false, 0, true, false;
      process, overflowed, timer, lanes, git := NotRunning, false, false, {}, Git([], false, false, 0, {});
      phase, runGeneration, runSelected, seen, starts := Idle, 0, selected, [], 0;
    }

    method FinishRun()
      modifies `runEnabled, `cancelVisible
      ensures Abs() == Dialog.FinishRun(old(Abs()))
    {
      runEnabled := true;
      cancelVisible := false;
    }

    method AppendRow(what: What, origin: Owner)
      requires currentCheck >= 0
      modifies `completed, `checksRun
      ensures Abs() == AddRow(old(Abs()), what, origin)
    {
      completed := completed + [Row(currentCheck, what, origin)];
      checksRun := checksRun + 1;
    }

    // The index loop of the check queue.
    method NextToggled(from: nat) returns (k: nat)
      requires from <= |selected|
      ensures k == NextSelected(selected, from)
    {
      k := from;
      while k < |selected| && !selected[k]
        invariant from <= k <= |selected|
        invariant NextSelected(selected, from) == NextSelected(selected, k)
      {
        k := k + 1;
      }
    }

    method CountToggles() returns (n: nat)
      ensures n == CountSelected(selected, |selected|)
    {
      n := 0;
      var k := 0;
      while k < |selected|
        invariant 0 <= k <= |selected| && n == CountSelected(selected, k)
      {
        if selected[k] {
          n := n + 1;
        }
        k := k + 1;
      }
    }

    // The index moves to check k, or behind the last check.
    method MoveTo(k: nat)
      requires Valid() && k <= |selected|
      modifies `currentCheck, `seen
      ensures Abs() == MovedTo(old(Abs()), k)
    {
      seen := SeenUpTo(Abs(), k);
      currentCheck := k;
    }

    // The current check goes to a lane, or to the process if that starts.
    method Launch(unstartable: set<nat>) returns (started: bool)
      requires Valid() && InRange(config, Abs())
      modifies `lanes, `overflowed, `timer, `process, `completed, `checksRun
      ensures started == !FailsToStart(config, currentCheck, unstartable)
      ensures Abs() == if started then StartCheck(config, old(Abs())) else FailedStart(old(Abs()))
    {
      var owner := Owner(generation, currentCheck);
      if config.checks[currentCheck].inProcess {
        lanes := lanes + {owner};
        return true;
      }
      overflowed := false;
      timer := true;
      if currentCheck in unstartable {
        timer := false;
        AppendRow(FailedToStart, owner);
        return false;
      }
      process := Up(owner);
      return true;
    }

    // The loop stopped at k: its check starts, or fails to, or the run ends.
    method Arrive(k: nat, unstartable: set<nat>) returns (goesOn: bool)
      requires Valid() && k <= |selected|
      modifies this
      ensures goesOn == FailsToStart(config, k, unstartable)
      ensures Abs() == if goesOn then AfterFailedStart(old(Abs()), k) else StopAt(config, old(Abs()), k)
    {
      MoveTo(k);
      if k >= |config.checks| {
        FinishRun();
        phase := Finished;
        return false;
      }
      var started := Launch(unstartable);
      goesOn := !started;
    }

    method RunNextCheck(unstartable: set<nat>)
      requires Valid() && currentCheck < |config.checks|
      modifies this
      ensures Valid() && Abs() == Dialog.RunNextCheck(config, old(Abs()), unstartable)
      decreases |config.checks| - currentCheck
    {
      if cancelled {
        return;
      }
      var k := NextToggled(currentCheck + 1);
      var goesOn := Arrive(k, unstartable);
      if goesOn {
        RunNextCheck(unstartable);
      }
    }

    method QueueChecks()
      modifies `checksRun, `currentCheck, `runEnabled, `phase, `runSelected, `seen, `starts
      ensures Abs() == Dialog.QueueChecks(old(Abs()), totalSelected)
    {
      checksRun := 0;
      currentCheck := -1;
      runEnabled := false;
      NoteStart();
    }

    ghost method NoteStart()
      modifies `phase, `runSelected, `seen, `starts
      ensures Abs() == old(Abs()).(phase := Checking, runSelected := selected, seen := [], starts := old(starts) + 1)
    {
      phase, runSelected, seen, starts := Checking, selected, [], starts + 1;
    }

    method StartSelectedChecks(unstartable: set<nat>)
      requires Valid()
      modifies this
      ensures Valid() && Abs() == Dialog.StartSelectedChecks(config, old(Abs()), unstartable)
    {
      var total := CountToggles();
      totalSelected := total;
      if total == 0 {
        phase, starts := Idle, starts + 1;
        return;
      }
      QueueChecks();
      assert Abs() == Dialog.QueueChecks(old(Abs()), total);
      RunNextCheck(unstartable);
    }

    method WakeAll(waiters: seq<Waiter>, unstartable: set<nat>)
      requires Valid()
      modifies this
      ensures Valid() && Abs() == Dialog.WakeAll(config, old(Abs()), waiters, unstartable)
    {
      var k := 0;
      while k < |waiters|
        invariant 0 <= k <= |waiters| && Valid()
        invariant Dialog.WakeAll(config, old(Abs()), waiters, unstartable)
               == Dialog.WakeAll(config, Abs(), waiters[k..], unstartable)
      {
        assert waiters[k..][1..] == waiters[k + 1..];
        if waiters[k] == StartRun(generation) {
          StartSelectedChecks(unstartable);
        }
        k := k + 1;
      }
    }

    method RequestRecentChangeSets(lines: bool, waiter: Waiter, unstartable: set<nat>)
      requires Valid()
      modifies this
      ensures Valid() && Abs() == Dialog.RequestRecentChangeSets(config, old(Abs()), lines, waiter, unstartable)
    {
      var waiters := git.waiters + [waiter];
      git := git.(waiters := waiters);
      if !config.isGit {
        git := git.(waiters := []);
        WakeAll(waiters, unstartable);
        return;
      }
      if git.inFlight && (git.inFlightLines || !lines) {
        return;
      }
      var request := git.request + 1;
      git := git.(inFlight := true, inFlightLines := lines, request := request,
          outstanding := git.outstanding + {request});
    }

    method ResetCounters()
      modifies `completed, `currentCheck, `checksRun, `totalSelected
      ensures Abs() == old(Abs()).(completed := [], currentCheck := -1, checksRun := 0, totalSelected := 0)
    {
      completed := [];
      currentCheck := -1;
      checksRun := 0;
      totalSelected := 0;
    }

    method RunAudit(scoped: bool, lines: bool, unstartable: set<nat>)
      requires Valid()
      modifies this
      ensures Valid() && Abs() == Dialog.RunAudit(config, old(Abs()), scoped, lines, unstartable)
    {
      ResetCounters();
      cancelled := false;
      generation := generation + 1;
      cancelVisible := true;
      phase, runGeneration, seen, starts := WaitingForGit, generation, [], 0;
      assert Abs() == ResetForRun(old(Abs()));
      if scoped {
        RequestRecentChangeSets(lines, StartRun(generation), unstartable);
      } else {
        StartSelectedChecks(unstartable);
      }
    }

    // The sentinel row of a cancelled run.
    method AppendSentinel(generation: nat)
      requires Valid()
      modifies `completed
      ensures Abs() == if 0 <= currentCheck < |config.checks|
                       then old(Abs()).(completed := old(completed) + [Row(currentCheck, CancelledByUser,
                           Owner(generation, currentCheck))])
                       else old(Abs())
    {
      if 0 <= currentCheck < |config.checks| {
        completed := completed + [Row(currentCheck, CancelledByUser, Owner(generation, currentCheck))];
      }
    }

    method CancelAudit()
      requires Valid()
      modifies this
      ensures Valid() && Abs() == Dialog.CancelAudit(config, old(Abs()))
    {
      if cancelled {
        return;
      }
      StopWork();
      AppendSentinel(generation - 1);
      FinishRun();
    }

    // The generation moves on and the process is killed.
    method StopWork()
      modifies `cancelled, `generation, `timer, `process, `phase
      ensures Abs() == old(Abs()).(cancelled := true, generation := old(generation) + 1, timer := false,
                                   process := NotRunning, phase := Cancelled)
    {
      cancelled := true;
      generation := generation + 1;
      KillCheck();
      phase := Cancelled;
    }

    method KillCheck()
      modifies `timer, `process
      ensures Abs() == old(Abs()).(timer := false, process := NotRunning)
    {
      timer := false;
      process := NotRunning;
    }

    method HandleCheckOutput(output: string, origin: Owner, unstartable: set<nat>)
      requires Valid()
      modifies this
      ensures Valid() && Abs() == Dialog.HandleCheckOutput(config, old(Abs()), output, origin, unstartable)
    {
      if cancelled || currentCheck < 0 || currentCheck >= |config.checks| {
        return;
      }
      AppendRow(Findings(output), origin);
      RunNextCheck(unstartable);
    }

    method OnCheckFinished(exit: Exit, unstartable: set<nat>)
      requires Valid() && process.Up?
      modifies this
      ensures Valid() && Abs() == Dialog.OnCheckFinished(config, old(Abs()), exit, unstartable)
    {
      var origin := process.owner;
      timer := false;
      process := NotRunning;
      if cancelled || currentCheck < 0 || currentCheck >= |config.checks| {
        return;
      }
      if overflowed {
        AppendRow(OutputTooLarge, origin);
        RunNextCheck(unstartable);
      } else if exit.crash {
        AppendRow(ToolCrashed(exit.err), origin);
        RunNextCheck(unstartable);
      } else if exit.code != 0 && exit.out == "" && exit.err != "" {
        AppendRow(ToolFailed(exit.err), origin);
        RunNextCheck(unstartable);
      } else {
        HandleCheckOutput(Merged(exit.out, exit.err), origin, unstartable);
      }
    }

    method OnTimeout(unstartable: set<nat>)
      requires Valid() && currentCheck < |config.checks|
      modifies this
      ensures Valid() && Abs() == Dialog.OnTimeout(config, old(Abs()), unstartable)
    {
      var was := process;
      KillCheck();
      if was.Up? {
        CountTimeout(was.owner, unstartable);
      }
    }

    // The row is added only at a check; the counter moves either way.
    method CountTimeout(origin: Owner, unstartable: set<nat>)
      requires Valid() && currentCheck < |config.checks|
      modifies this
      ensures Valid()
      ensures Abs() == if InRange(config, old(Abs())) then AddAndGoOn(config, old(Abs()), TimedOut, origin, unstartable)
                       else Dialog.RunNextCheck(config, old(Abs()).(checksRun := old(checksRun) + 1), unstartable)
    {
      if 0 <= currentCheck < |config.checks| {
        AppendRow(TimedOut, origin);
        RunNextCheck(unstartable);
      } else {
        checksRun := checksRun + 1;
        RunNextCheck(unstartable);
      }
    }

    method OnLaneResult(lane: Owner, output: string, unstartable: set<nat>)
      requires Valid()
      modifies this
      ensures Valid() && Abs() == Dialog.OnLaneResult(config, old(Abs()), lane, output, unstartable)
    {
      lanes := lanes - {lane};
      if lane.generation != generation {
        return;
      }
      HandleCheckOutput(output, lane, unstartable);
    }

    method OnGitResult(request: nat, unstartable: set<nat>)
      requires Valid()
      modifies this
      ensures Valid() && Abs() == Dialog.OnGitResult(config, old(Abs()), request, unstartable)
    {
      git := git.(outstanding := git.outstanding - {request});
      if request != git.request {
        return;
      }
      var waiters := git.waiters;
      git := git.(inFlight := false, waiters := []);
      WakeAll(waiters, unstartable);
    }

    // The loops of the two bulk buttons.
    method AllOn()
      requires Valid()
      modifies `selected
      ensures Valid() && Abs() == old(Abs()).(selected := TurnAllOn(config, old(selected)))
    {
      var k := 0;
      while k < |config.checks|
        invariant 0 <= k <= |config.checks| == |selected|
        invariant forall j | 0 <= j < k :: selected[j] == (old(selected)[j] || config.checks[j].available)
        invariant forall j | k <= j < |selected| :: selected[j] == old(selected)[j]
      {
        if config.checks[k].available {
          selected := selected[k := true];
        }
        k := k + 1;
      }
      assert selected == TurnAllOn(config, old(selected));
    }

    method AllOff()
      requires Valid()
      modifies `selected
      ensures Valid() && Abs() == old(Abs()).(selected := TurnAllOff(old(selected)))
    {
      var k := 0;
      while k < |config.checks|
        invariant 0 <= k <= |config.checks| == |selected|
        invariant forall j | 0 <= j < k :: !selected[j]
      {
        selected := selected[k := false];
        k := k + 1;
      }
      assert selected == TurnAllOff(old(selected));
    }
  }
}
