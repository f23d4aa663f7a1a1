/** In-process audit lanes: one detached worker, one waiter with a deadline.
    Every critical section is one step, taken by either side when enabled. */
module Lanes {

  // A lane is its id and the text its function returns.
  datatype Lane = Lane(id: string, output: string)

  datatype Status = Ok | TimedOut
  datatype Outcome = Outcome(id: string, status: Status, output: string, elapsedMs: nat)

  // Where the worker is. Between `Checked` and `Running` it holds no lock.
  datatype Worker =
    | Absent                 // no thread was started
    | AtCheck(lane: nat)     // about to look at `abandoned`
    | Checked(lane: nat)     // the look said: go on
    | Running(lane: nat)     // inside the lane function
    | Leaving                // out of the loop, about to set `finished`
    | Gone

  datatype State = State(
    worker: Worker,
    done: seq<Outcome>,
    finished: bool,
    abandoned: bool,
    returned: bool,          // the waiter is back, with `out`
    sawFinished: bool,       // what its wait ended on
    out: seq<Outcome>,
    started: nat)            // lane functions entered so far

  datatype Call = Call(lanes: seq<Lane>, budgetMs: int)

  function TimedOutOutcome(c: Call, k: nat): Outcome
    requires k < |c.lanes|
  {
    Outcome(c.lanes[k].id, TimedOut, "", if c.budgetMs > 0 then c.budgetMs else 0)
  }

  function AllTimedOut(c: Call): seq<Outcome> {
    seq(|c.lanes|, k requires 0 <= k < |c.lanes| => TimedOutOutcome(c, k))
  }

  // `out[i] = done[i]` for every finished lane.
  function Overlay(out: seq<Outcome>, done: seq<Outcome>): seq<Outcome>
    requires |done| <= |out|
  {
    done + out[|done|..]
  }

  predicate Init(c: Call, s: State) {
    && s.done == [] && !s.finished && !s.abandoned && !s.sawFinished && s.started == 0
    && s.out == AllTimedOut(c)
    && if c.lanes == [] || c.budgetMs <= 0 then s.worker == Absent && s.returned
       else s.worker == AtCheck(0) && !s.returned
  }

  // The worker's steps, each one critical section or one lane function.
  ghost predicate WorkerStep(c: Call, s: State, t: State) {
    match s.worker
    case AtCheck(k) =>
      t == s.(worker := if k >= |c.lanes| || s.abandoned then Leaving else Checked(k))
    case Checked(k) =>
      t == s.(worker := Running(k), started := s.started + 1)
    case Running(k) =>
      k < |c.lanes|
      && exists ms: nat ::
        t == s.(worker := AtCheck(k + 1), done := s.done + [Outcome(c.lanes[k].id, Ok, c.lanes[k].output, ms)])
    case Leaving =>
      t == s.(worker := Gone, finished := true)
    case Absent => false
    case Gone => false
  }

  // The wait ends on `finished` or on the deadline, whichever comes first.
  ghost predicate WaiterStep(c: Call, s: State, t: State) {
    && !s.returned
    && |s.done| <= |s.out|
    && t == s.(returned := true, sawFinished := s.finished, abandoned := !s.finished, out := Overlay(s.out, s.done))
  }

  ghost predicate Next(c: Call, s: State, t: State) {
    WorkerStep(c, s, t) || WaiterStep(c, s, t)
  }

  ghost predicate Run(c: Call, trace: seq<State>) {
    && |trace| > 0 && Init(c, trace[0])
    && forall k | 0 < k < |trace| :: Next(c, trace[k - 1], trace[k])
  }

  // --------------------------------------------------------------- invariant

  ghost predicate OkPrefix(c: Call, out: seq<Outcome>, n: nat) {
    && n <= |c.lanes| && n <= |out|
    && forall k | 0 <= k < n ::
      out[k].id == c.lanes[k].id && out[k].status.Ok? && out[k].output == c.lanes[k].output
  }

  ghost predicate Pending(c: Call, out: seq<Outcome>, n: nat) {
    && |out| == |c.lanes|
    && forall k | n <= k < |out| :: out[k] == TimedOutOutcome(c, k)
  }

  // How far the worker is, in lanes entered; and whether it left by itself.
  predicate Position(c: Call, s: State) {
    match s.worker
    case Absent => s.done == [] && s.started == 0
    case AtCheck(k) => k == |s.done| == s.started
    case Checked(k) => k == |s.done| == s.started && k < |c.lanes|
    case Running(k) => k == |s.done| && s.started == k + 1 <= |c.lanes|
    case Leaving => |s.done| == s.started && (s.started == |c.lanes| || s.abandoned)
    case Gone => |s.done| == s.started && (s.started == |c.lanes| || s.abandoned) && s.finished
  }

  // Lanes the caller was told about.
  function Reported(out: seq<Outcome>): (n: nat)
    ensures n <= |out|
    ensures forall k | 0 <= k < n :: out[k].status.Ok?
    ensures n < |out| ==> out[n].status.TimedOut?
  {
    OkRun(out, 0)
  }

  function OkRun(out: seq<Outcome>, from: nat): (n: nat)
    requires from <= |out|
    ensures from <= n <= |out|
    ensures forall k | from <= k < n :: out[k].status.Ok?
    ensures n < |out| ==> out[n].status.TimedOut?
    decreases |out| - from
  {
    if from == |out| || out[from].status.TimedOut? then from else OkRun(out, from + 1)
  }

  ghost predicate Inv(c: Call, s: State) {
    && |s.done| <= |c.lanes| && |s.out| == |c.lanes|
    && OkPrefix(c, s.done, |s.done|)
    && Position(c, s)
    && (s.finished ==> s.worker == Gone)
    && (s.abandoned ==> s.returned && !s.sawFinished)
    && (!s.returned ==> s.out == AllTimedOut(c))
    && (s.returned ==>
        var n := Reported(s.out);
        && OkPrefix(c, s.out, n) && Pending(c, s.out, n)
        && n <= |s.done|
        && (s.sawFinished ==> n == |c.lanes| && s.worker == Gone)
        && (!s.sawFinished ==> s.worker.Absent? || s.abandoned)
        // What the worker enters from here on, counted against the report.
        && (s.abandoned ==> s.started <= n + (if s.worker.AtCheck? then (if |s.done| == n then 0 else 1) else 1))
        && (s.abandoned && s.worker.Checked? ==> s.started == n))
  }

  lemma ReportedIs(c: Call, out: seq<Outcome>, n: nat)
    requires n <= |out| && OkPrefix(c, out, n)
    requires n < |out| ==> out[n].status.TimedOut?
    ensures Reported(out) == n
  {
  }

  lemma InitInv(c: Call, s: State)
    requires Init(c, s)
    ensures Inv(c, s)
  {
    if s.returned {
      ReportedIs(c, s.out, 0);
    }
  }

  lemma WorkerKeepsInv(c: Call, s: State, t: State)
    requires Inv(c, s) && WorkerStep(c, s, t)
    ensures Inv(c, t)
  {
  }

  lemma WaiterKeepsInv(c: Call, s: State, t: State)
    requires Inv(c, s) && WaiterStep(c, s, t)
    ensures Inv(c, t)
  {
    ReportedIs(c, t.out, |s.done|);
  }

  lemma {:induction false} Reachable(c: Call, trace: seq<State>, k: nat)
    requires Run(c, trace) && k < |trace|
    ensures Inv(c, trace[k])
  {
    if k == 0 {
      InitInv(c, trace[0]);
    } else {
      Reachable(c, trace, k - 1);
      assert Next(c, trace[k - 1], trace[k]);
      if WorkerStep(c, trace[k - 1], trace[k]) {
        WorkerKeepsInv(c, trace[k - 1], trace[k]);
      } else {
        WaiterKeepsInv(c, trace[k - 1], trace[k]);
      }
    }
  }

  // ------------------------------------------------------------ main results

  // Every interleaving: outcomes in input order, an ok prefix with each
  // lane's own output, then a timed-out suffix with the budget.
  lemma OutcomesAreAPrefix(c: Call, trace: seq<State>, k: nat)
    requires Run(c, trace) && k < |trace| && trace[k].returned
    ensures var out := trace[k].out;
            var n := Reported(out);
            && |out| == |c.lanes|
            && (forall j | 0 <= j < |out| :: out[j].id == c.lanes[j].id)
            && (forall j | 0 <= j < n :: out[j].status.Ok? && out[j].output == c.lanes[j].output)
            && (forall j | n <= j < |out| :: out[j] == TimedOutOutcome(c, j))
            && (trace[k].sawFinished ==> n == |c.lanes|)
  {
    Reachable(c, trace, k);
  }

  // A lane function entered but not reported is the only one that may still
  // run, or have run, behind the caller's back.
  lemma AtMostOneLaneOutlivesTheCall(c: Call, trace: seq<State>, k: nat)
    requires Run(c, trace) && k < |trace| && trace[k].returned
    ensures Reported(trace[k].out) <= trace[k].started <= Reported(trace[k].out) + 1
  {
    Reachable(c, trace, k);
  }

  // Without a budget, or without lanes, the call is over before any step.
  lemma NoBudgetNoLane(c: Call, trace: seq<State>)
    requires Run(c, trace) && (c.budgetMs <= 0 || c.lanes == [])
    ensures |trace| == 1 && trace[0].returned && trace[0].started == 0 && trace[0].out == AllTimedOut(c)
  {
    assert |trace| > 1 ==> Next(c, trace[0], trace[1]);
  }

  // What was returned stays what it was, whatever the worker does later.
  lemma {:induction false} ReturnedIsFinal(c: Call, trace: seq<State>, j: nat, k: nat)
    requires Run(c, trace) && j <= k < |trace| && trace[j].returned
    ensures trace[k].returned && trace[k].out == trace[j].out && trace[k].sawFinished == trace[j].sawFinished
  {
    if j < k {
      ReturnedIsFinal(c, trace, j, k - 1);
      assert Next(c, trace[k - 1], trace[k]);
    }
  }

  // Worker steps left: it ends by itself, abandoned or not.
  function WorkLeft(c: Call, w: Worker): nat {
    match w
    case AtCheck(k) => if k <= |c.lanes| then 3 * (|c.lanes| - k) + 3 else 3
    case Checked(k) => if k <= |c.lanes| then 3 * (|c.lanes| - k) + 2 else 0
    case Running(k) => if k <= |c.lanes| then 3 * (|c.lanes| - k) + 1 else 0
    case Leaving => 1
    case Absent => 0
    case Gone => 0
  }

  lemma WorkerEnds(c: Call, s: State, t: State)
    requires Inv(c, s) && WorkerStep(c, s, t)
    ensures WorkLeft(c, t.worker) < WorkLeft(c, s.worker)
  {
  }

  // The worker is never stuck before it is gone.
  lemma WorkerCanStep(c: Call, s: State) returns (t: State)
    requires Inv(c, s) && !s.worker.Absent? && !s.worker.Gone?
    ensures WorkerStep(c, s, t)
  {
    match s.worker
    case AtCheck(k) => t := s.(worker := if k >= |c.lanes| || s.abandoned then Leaving else Checked(k));
    case Checked(k) => t := s.(worker := Running(k), started := s.started + 1);
    case Running(k) =>
      var ms: nat := 0;
      t := s.(worker := AtCheck(k + 1), done := s.done + [Outcome(c.lanes[k].id, Ok, c.lanes[k].output, ms)]);
      assert t == s.(worker := AtCheck(k + 1), done := s.done + [Outcome(c.lanes[k].id, Ok, c.lanes[k].output, ms)]);
    case Leaving => t := s.(worker := Gone, finished := true);
  }

  // ---------------------------------------------------------- the call itself

  // The shared record with the two sides' positions. Every method is one
  // atomic step; their bodies are the code's, their contracts the steps above.
  class Shared {
    const call: Call
    var worker: Worker
    var done: seq<Outcome>
    var finished: bool
    var abandoned: bool
    var returned: bool
    var sawFinished: bool
    var out: seq<Outcome>
    ghost var started: nat

    ghost function Abs(): State
      reads this
    {
      State(worker, done, finished, abandoned, returned, sawFinished, out, started)
    }

    constructor (c: Call)
      ensures call == c && Init(c, Abs())
    {
      call := c;
      done, finished, abandoned, sawFinished, started := [], false, false, false, 0;
      out := AllTimedOut(c);
      returned := c.lanes == [] || c.budgetMs <= 0;
      worker := if c.lanes == [] || c.budgetMs <= 0 then Absent else AtCheck(0);
    }

    // Under the lock: is another lane wanted?
    method Check()
      requires worker.AtCheck?
      modifies this
      ensures WorkerStep(call, old(Abs()), Abs())
    {
      if worker.lane >= |call.lanes| || abandoned {
        worker := Leaving;
      } else {
        worker := Checked(worker.lane);
      }
    }

    // No lock is held while the lane function runs.
    method Enter()
      requires worker.Checked?
      modifies this
      ensures WorkerStep(call, old(Abs()), Abs())
    {
      worker, started := Running(worker.lane), started + 1;
    }

    // Under the lock: the lane's outcome joins the finished ones.
    method Append(elapsedMs: nat)
      requires worker.Running? && worker.lane < |call.lanes|
      modifies this
      ensures WorkerStep(call, old(Abs()), Abs())
    {
      var lane := call.lanes[worker.lane];
      done := done + [Outcome(lane.id, Ok, lane.output, elapsedMs)];
      worker := AtCheck(worker.lane + 1);
    }

    // Under the lock, after the loop, whether it ran out or was left.
    method Finish()
      requires worker.Leaving?
      modifies this
      ensures WorkerStep(call, old(Abs()), Abs())
    {
      finished := true;
      worker := Gone;
    }

    // The wait is over: by `finished`, or by the deadline.
    method Collect()
      requires !returned && |done| <= |out|
      modifies this
      ensures WaiterStep(call, old(Abs()), Abs())
    {
      sawFinished := finished;
      abandoned := !finished;
      out := Overlaid(out, done);
      returned := true;
    }
  }

  // Each finished lane takes its slot.
  method Overlaid(slots: seq<Outcome>, done: seq<Outcome>) returns (out: seq<Outcome>)
    requires |done| <= |slots|
    ensures out == Overlay(slots, done)
  {
    out := slots;
    var i := 0;
    while i < |done|
      invariant 0 <= i <= |done| && |out| == |slots|
      invariant forall k | 0 <= k < i :: out[k] == done[k]
      invariant forall k | i <= k < |out| :: out[k] == slots[k]
    {
      out := out[i := done[i]];
      i := i + 1;
    }
  }
}
