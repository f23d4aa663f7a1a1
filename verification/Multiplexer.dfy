/** The external-tool multiplexer of an audit run: process signals and caps in
    any order, one result a tool. `Step` is a callback's effect on values; the
    theorems are about every run of such steps, and the class has the callbacks
    with their loops and their shared variables. */
module Multiplexer {
  import opened Chars
  import Counting

  type Tool = string
  type Finding = Counting.Finding
  type Sample = Counting.Sample

  datatype Status = Ok | TimedOut | Crashed | OutputTooLarge

  datatype Parsed = Parsed(rawCount: int, suppressedCount: int, findings: seq<Finding>, samples: seq<Sample>,
      aborted: bool)

  datatype ToolResult = ToolResult(
    status: Status, rawCount: int, afterFilterCount: int, samples: seq<Sample>, findings: seq<Finding>)

  // The parser of a tool's output; blank output parses to nothing.
  type Parser = (Tool, string) -> Parsed

  ghost predicate BlankIsEmpty(parse: Parser) {
    forall tool :: parse(tool, "") == Parsed(0, 0, [], [], false)
  }

  datatype Phase = Spawning | Looping | Over

  datatype State = State(
    phase: Phase,
    running: map<Tool, bool>,         // every spawned tool; false once its process ended
    byTool: map<Tool, ToolResult>,
    pending: int,
    timedOut: set<Tool>,              // signalled by the per-tool cap
    outputCapped: set<Tool>,
    outBuf: map<Tool, string>,
    errBuf: map<Tool, string>,
    quit: bool)

  const MAX_TOOL_OUTPUT: nat := 64 * 1024 * 1024

  const INIT := State(Spawning, map[], map[], 0, {}, {}, map[], map[], false)

  datatype Event =
    | Spawn(tool: Tool)
    | EndSpawn
    | Output(tool: Tool, out: string, err: string)
    | Finished(tool: Tool, out: string, err: string, crashExit: bool)
    | Error(tool: Tool, out: string, err: string, ended: bool)   // `ended`: the process is gone
    | ToolCap(tool: Tool)
    | GraceOver(tool: Tool)
    | AggregateCap
    | Leave                                                      // the event loop returns

  // ------------------------------------------------------------ specification

  function Buffered(buf: map<Tool, string>, tool: Tool): string {
    if tool in buf then buf[tool] else ""
  }

  function ToolExitStatus(timedOut: bool, crashExit: bool): Status {
    if timedOut then TimedOut else if crashExit then Crashed else Ok
  }

  function MergeChannels(out: string, err: string): string {
    if Blank(out) then err else if err != "" then out + "\n" + err else out
  }

  function ResultOf(parse: Parser, tool: Tool, status: Status, raw: string): ToolResult {
    var p := parse(tool, raw);
    ToolResult(if status == Ok && p.aborted then Crashed else status,
               p.rawCount, p.rawCount - p.suppressedCount, p.samples, p.findings)
  }

  function FinishStep(parse: Parser, s: State, tool: Tool, status: Status, raw: string): State {
    if tool in s.byTool then s
    else s.(byTool := s.byTool[tool := ResultOf(parse, tool, status, raw)],
            pending := s.pending - 1,
            quit := s.quit || s.pending <= 1)
  }

  function DrainStep(s: State, tool: Tool, out: string, err: string): State {
    if tool in s.outputCapped then s
    else
      var out' := Buffered(s.outBuf, tool) + out;
      var err' := Buffered(s.errBuf, tool) + err;
      if |out'| + |err'| <= MAX_TOOL_OUTPUT then s.(outBuf := s.outBuf[tool := out'], errBuf := s.errBuf[tool := err'])
      else s.(outputCapped := s.outputCapped + {tool}, outBuf := s.outBuf - {tool}, errBuf := s.errBuf - {tool})
  }

  function FinishedStep(parse: Parser, s: State, tool: Tool, out: string, err: string, crashExit: bool): State {
    var d := DrainStep(s.(running := s.running[tool := false]), tool, out, err);
    if tool in d.outputCapped then FinishStep(parse, d, tool, OutputTooLarge, "")
    else
      var status := ToolExitStatus(tool in d.timedOut, crashExit);
      var raw := MergeChannels(Buffered(d.outBuf, tool), Buffered(d.errBuf, tool));
      FinishStep(parse, d.(outBuf := d.outBuf - {tool}, errBuf := d.errBuf - {tool}), tool, status,
                 if status == TimedOut then "" else raw)
  }

  function ErrorStep(parse: Parser, s: State, tool: Tool, out: string, err: string, ended: bool): State
    requires tool in s.running
  {
    var d := DrainStep(s.(running := s.running[tool := s.running[tool] && !ended]), tool, out, err);
    if tool in d.outputCapped then FinishStep(parse, d, tool, OutputTooLarge, "")
    else
      var cut := tool in d.timedOut;
      FinishStep(parse, d, tool, ToolExitStatus(cut, true), if cut then "" else Buffered(d.errBuf, tool))
  }

  // Tools the aggregate cap has to end: running and without a result.
  function Unfinished(s: State): set<Tool> {
    set t | t in s.running && s.running[t] && t !in s.byTool
  }

  function CutResults(parse: Parser, tools: set<Tool>): (m: map<Tool, ToolResult>)
    ensures m.Keys == tools
  {
    map t | t in tools :: ResultOf(parse, t, TimedOut, "")
  }

  function AggregateStep(parse: Parser, s: State): State {
    s.(byTool := s.byTool + CutResults(parse, Unfinished(s)),
       pending := s.pending - |Unfinished(s)|,
       quit := true)
  }

  // Every order of events is allowed that the processes and timers can give;
  // some are allowed that they cannot.
  predicate Enabled(s: State, e: Event) {
    match e
    case Spawn(tool) => s.phase == Spawning && tool !in s.running
    case EndSpawn => s.phase == Spawning
    case Output(tool, _, _) => s.phase != Over && tool in s.running
    case Finished(tool, _, _, _) => s.phase != Over && tool in s.running
    case Error(tool, _, _, _) => s.phase != Over && tool in s.running
    case ToolCap(tool) => s.phase != Over && tool in s.running
    case GraceOver(tool) => s.phase != Over && tool in s.timedOut && tool in s.running
    case AggregateCap => s.phase == Looping
    case Leave => s.phase == Looping && s.quit
  }

  function Step(parse: Parser, s: State, e: Event): State
    requires Enabled(s, e)
  {
    match e
    case Spawn(tool) => s.(running := s.running[tool := true], pending := s.pending + 1)
    case EndSpawn => if s.pending > 0 then s.(phase := Looping, quit := false) else s.(phase := Over)
    case Output(tool, out, err) => DrainStep(s, tool, out, err)
    case Finished(tool, out, err, crashExit) => FinishedStep(parse, s, tool, out, err, crashExit)
    case Error(tool, out, err, ended) => ErrorStep(parse, s, tool, out, err, ended)
    case ToolCap(tool) => if s.running[tool] then s.(timedOut := s.timedOut + {tool}) else s
    case GraceOver(tool) => FinishStep(parse, s, tool, TimedOut, "")
    case AggregateCap => AggregateStep(parse, s)
    case Leave => s.(phase := Over)
  }

  ghost predicate Run(parse: Parser, trace: seq<State>, events: seq<Event>) {
    && |trace| == |events| + 1 && trace[0] == INIT
    && forall k | 0 <= k < |events| :: Enabled(trace[k], events[k]) && trace[k + 1] == Step(parse, trace[k], events[k])
  }

  // ---------------------------------------------------------------- invariant

  ghost predicate CutIsEmpty(r: ToolResult) {
    (r.status == TimedOut || r.status == OutputTooLarge)
      ==> r.rawCount == 0 && r.afterFilterCount == 0 && r.findings == [] && r.samples == []
  }

  // Owed results are counted, and a process that is gone has its result.
  // `except` is a tool whose ending is being recorded right now.
  ghost predicate Counted(s: State, except: set<Tool>) {
    && s.byTool.Keys <= s.running.Keys
    && s.pending + |s.byTool.Keys| == |s.running.Keys|
    && (forall t | t in s.running && t !in except && !s.running[t] :: t in s.byTool)
    && (s.phase != Spawning && (s.quit || s.phase == Over) ==> s.byTool.Keys == s.running.Keys)
    && (s.phase == Looping && s.pending <= 0 ==> s.quit)
  }

  ghost predicate AllCutEmpty(byTool: map<Tool, ToolResult>) {
    forall t | t in byTool :: CutIsEmpty(byTool[t])
  }

  lemma {:induction false} SubsetSameSize<T>(a: set<T>, b: set<T>)
    requires a <= b && |a| >= |b|
    ensures a == b
  {
    assert b == a + (b - a);
    assert |b| == |a| + |b - a|;
  }

  // Draining touches the buffers only.
  lemma DrainKeeps(s: State, tool: Tool, out: string, err: string)
    ensures var t := DrainStep(s, tool, out, err);
            t.phase == s.phase && t.running == s.running && t.byTool == s.byTool && t.pending == s.pending
            && t.quit == s.quit && t.timedOut == s.timedOut
  {
  }

  lemma FinishCounts(parse: Parser, s: State, tool: Tool, status: Status, raw: string)
    requires tool in s.running && s.phase != Over && Counted(s, {tool})
    ensures Counted(FinishStep(parse, s, tool, status, raw), {})
    ensures tool in FinishStep(parse, s, tool, status, raw).byTool
  {
    var t := FinishStep(parse, s, tool, status, raw);
    if tool !in s.byTool {
      KeysGrow(s.byTool, tool, t.byTool[tool]);
      if t.pending <= 0 {
        SubsetSameSize(t.byTool.Keys, s.running.Keys);
      }
    }
  }

  lemma FinishKeepsCutEmpty(parse: Parser, s: State, tool: Tool, status: Status, raw: string)
    requires BlankIsEmpty(parse) && AllCutEmpty(s.byTool)
    requires (status == TimedOut || status == OutputTooLarge) ==> raw == ""
    ensures AllCutEmpty(FinishStep(parse, s, tool, status, raw).byTool)
  {
    assert CutIsEmpty(ResultOf(parse, tool, status, raw));
  }

  // A process signal leaves a result behind, whether the process is up or gone.
  lemma FinishedCounts(parse: Parser, s: State, tool: Tool, out: string, err: string, crashExit: bool)
    requires Counted(s, {}) && s.phase != Over && tool in s.running
    ensures Counted(FinishedStep(parse, s, tool, out, err, crashExit), {})
    ensures tool in FinishedStep(parse, s, tool, out, err, crashExit).byTool
  {
    var d := DrainedAt(s, tool, false, out, err);
    if tool in d.outputCapped {
      FinishCounts(parse, d, tool, OutputTooLarge, "");
    } else {
      var status := ToolExitStatus(tool in d.timedOut, crashExit);
      var raw := if status == TimedOut then "" else MergeChannels(Buffered(d.outBuf, tool), Buffered(d.errBuf, tool));
      FinishCounts(parse, d.(outBuf := d.outBuf - {tool}, errBuf := d.errBuf - {tool}), tool, status, raw);
    }
  }

  lemma ErrorCounts(parse: Parser, s: State, tool: Tool, out: string, err: string, ended: bool)
    requires Counted(s, {}) && s.phase != Over && tool in s.running
    ensures Counted(ErrorStep(parse, s, tool, out, err, ended), {})
    ensures tool in ErrorStep(parse, s, tool, out, err, ended).byTool
  {
    var d := DrainedAt(s, tool, s.running[tool] && !ended, out, err);
    var cut := tool in d.timedOut;
    if tool in d.outputCapped {
      FinishCounts(parse, d, tool, OutputTooLarge, "");
    } else {
      FinishCounts(parse, d, tool, ToolExitStatus(cut, true), if cut then "" else Buffered(d.errBuf, tool));
    }
  }

  // The tool's ending is noted and its output drained; its result is yet to come.
  lemma DrainedAt(s: State, tool: Tool, up: bool, out: string, err: string) returns (d: State)
    requires Counted(s, {}) && tool in s.running
    ensures d == DrainStep(s.(running := s.running[tool := up]), tool, out, err)
    ensures Counted(d, {tool}) && tool in d.running && d.phase == s.phase && d.byTool == s.byTool
  {
    var down := s.(running := s.running[tool := up]);
    assert down.running.Keys == s.running.Keys;
    DrainKeeps(down, tool, out, err);
    d := DrainStep(down, tool, out, err);
  }

  lemma AggregateCounts(parse: Parser, s: State)
    requires Counted(s, {}) && s.phase == Looping
    ensures Counted(AggregateStep(parse, s), {}) && AggregateStep(parse, s).pending == 0
  {
    var t := AggregateStep(parse, s);
    UnfinishedIsTheRest(s);
    assert t.byTool.Keys == s.byTool.Keys + Unfinished(s);
  }

  lemma UnfinishedIsTheRest(s: State)
    requires Counted(s, {})
    ensures s.byTool.Keys + Unfinished(s) == s.running.Keys
    ensures |s.byTool.Keys| + |Unfinished(s)| == |s.running.Keys|
  {
    assert s.byTool.Keys !! Unfinished(s);
    assert s.byTool.Keys + Unfinished(s) == s.running.Keys;
  }

  lemma CutResultsAreEmpty(parse: Parser, byTool: map<Tool, ToolResult>, cut: set<Tool>)
    requires BlankIsEmpty(parse) && AllCutEmpty(byTool)
    ensures AllCutEmpty(byTool + CutResults(parse, cut))
  {
    forall u | u in cut ensures CutIsEmpty(CutResults(parse, cut)[u]) {
      assert CutIsEmpty(ResultOf(parse, u, TimedOut, ""));
    }
  }

  lemma SpawnCounts(parse: Parser, s: State, tool: Tool)
    requires Counted(s, {}) && Enabled(s, Spawn(tool))
    ensures Counted(Step(parse, s, Spawn(tool)), {})
  {
    KeysGrow(s.running, tool, true);
  }

  lemma KeysGrow<V>(m: map<Tool, V>, tool: Tool, v: V)
    requires tool !in m
    ensures m[tool := v].Keys == m.Keys + {tool} && |m[tool := v].Keys| == |m.Keys| + 1
  {
    assert m[tool := v].Keys == m.Keys + {tool};
  }

  lemma StepCounts(parse: Parser, s: State, e: Event)
    requires Counted(s, {}) && Enabled(s, e)
    ensures Counted(Step(parse, s, e), {})
  {
    match e
    case Finished(tool, out, err, crashExit) => FinishedCounts(parse, s, tool, out, err, crashExit);
    case Error(tool, out, err, ended) => ErrorCounts(parse, s, tool, out, err, ended);
    case AggregateCap => AggregateCounts(parse, s);
    case Output(tool, out, err) => DrainKeeps(s, tool, out, err);
    case GraceOver(tool) =>
      assert Counted(s, {tool});
      FinishCounts(parse, s, tool, TimedOut, "");
    case EndSpawn =>
      if s.pending <= 0 {
        SubsetSameSize(s.byTool.Keys, s.running.Keys);
      }
    case Spawn(tool) => SpawnCounts(parse, s, tool);
    case ToolCap(tool) =>
    case Leave =>
  }

  lemma {:induction false} Reachable(parse: Parser, trace: seq<State>, events: seq<Event>, k: nat)
    requires Run(parse, trace, events) && k < |trace|
    ensures Counted(trace[k], {})
  {
    if k > 0 {
      Reachable(parse, trace, events, k - 1);
      StepCounts(parse, trace[k - 1], events[k - 1]);
    }
  }

  lemma ErrorKeepsCutEmpty(parse: Parser, s: State, tool: Tool, out: string, err: string, ended: bool)
    requires BlankIsEmpty(parse) && AllCutEmpty(s.byTool) && tool in s.running
    ensures AllCutEmpty(ErrorStep(parse, s, tool, out, err, ended).byTool)
  {
    var down := s.(running := s.running[tool := s.running[tool] && !ended]);
    DrainKeeps(down, tool, out, err);
    var d := DrainStep(down, tool, out, err);
    var cut := tool in d.timedOut;
    if tool in d.outputCapped {
      FinishKeepsCutEmpty(parse, d, tool, OutputTooLarge, "");
    } else {
      FinishKeepsCutEmpty(parse, d, tool, ToolExitStatus(cut, true), if cut then "" else Buffered(d.errBuf, tool));
    }
  }

  lemma FinishedKeepsCutEmpty(parse: Parser, s: State, tool: Tool, out: string, err: string, crashExit: bool)
    requires BlankIsEmpty(parse) && AllCutEmpty(s.byTool)
    ensures AllCutEmpty(FinishedStep(parse, s, tool, out, err, crashExit).byTool)
  {
    var down := s.(running := s.running[tool := false]);
    DrainKeeps(down, tool, out, err);
    var d := DrainStep(down, tool, out, err);
    if tool in d.outputCapped {
      FinishKeepsCutEmpty(parse, d, tool, OutputTooLarge, "");
    } else {
      var status := ToolExitStatus(tool in d.timedOut, crashExit);
      var raw := if status == TimedOut then "" else MergeChannels(Buffered(d.outBuf, tool), Buffered(d.errBuf, tool));
      FinishKeepsCutEmpty(parse, d.(outBuf := d.outBuf - {tool}, errBuf := d.errBuf - {tool}), tool, status, raw);
    }
  }

  lemma StepKeepsCutEmpty(parse: Parser, s: State, e: Event)
    requires BlankIsEmpty(parse) && AllCutEmpty(s.byTool) && Enabled(s, e)
    ensures AllCutEmpty(Step(parse, s, e).byTool)
  {
    match e
    case Finished(tool, out, err, crashExit) => FinishedKeepsCutEmpty(parse, s, tool, out, err, crashExit);
    case Error(tool, out, err, ended) => ErrorKeepsCutEmpty(parse, s, tool, out, err, ended);
    case AggregateCap => CutResultsAreEmpty(parse, s.byTool, Unfinished(s));
    case Output(tool, out, err) => DrainKeeps(s, tool, out, err);
    case GraceOver(tool) => FinishKeepsCutEmpty(parse, s, tool, TimedOut, "");
    case _ =>
  }

  lemma {:induction false} ReachedCutEmpty(parse: Parser, trace: seq<State>, events: seq<Event>, k: nat)
    requires BlankIsEmpty(parse) && Run(parse, trace, events) && k < |trace|
    ensures AllCutEmpty(trace[k].byTool)
  {
    if k > 0 {
      ReachedCutEmpty(parse, trace, events, k - 1);
      StepKeepsCutEmpty(parse, trace[k - 1], events[k - 1]);
    }
  }

  // ------------------------------------------------------------- main results

  // Whatever the order of events, the counter is the tools still owed a
  // result, and once the loop is over none is owed.
  lemma EveryToolEndsOnce(parse: Parser, trace: seq<State>, events: seq<Event>, k: nat)
    requires Run(parse, trace, events) && k < |trace|
    ensures var s := trace[k];
            && s.pending + |s.byTool.Keys| == |s.running.Keys|
            && s.byTool.Keys <= s.running.Keys
            && (s.phase == Over ==> s.byTool.Keys == s.running.Keys && s.pending == 0)
  {
    Reachable(parse, trace, events, k);
  }

  // A tool that was cut off reports nothing, whatever it had printed.
  lemma CutToolsReportNothing(parse: Parser, trace: seq<State>, events: seq<Event>, k: nat, tool: Tool)
    requires BlankIsEmpty(parse) && Run(parse, trace, events) && k < |trace| && tool in trace[k].byTool
    requires trace[k].byTool[tool].status in {TimedOut, OutputTooLarge}
    ensures var r := trace[k].byTool[tool];
            r.rawCount == 0 && r.afterFilterCount == 0 && r.findings == [] && r.samples == []
  {
    ReachedCutEmpty(parse, trace, events, k);
  }

  ghost predicate Keeps(before: map<Tool, ToolResult>, after: map<Tool, ToolResult>) {
    forall tool | tool in before :: tool in after && after[tool] == before[tool]
  }

  lemma FinishKeeps(parse: Parser, s: State, tool: Tool, status: Status, raw: string)
    ensures Keeps(s.byTool, FinishStep(parse, s, tool, status, raw).byTool)
  {
  }

  lemma EndedKeeps(parse: Parser, s: State, e: Event)
    requires Enabled(s, e) && (e.Finished? || e.Error?)
    ensures Keeps(s.byTool, Step(parse, s, e).byTool)
  {
    var down := s.(running := s.running[e.tool := if e.Error? then s.running[e.tool] && !e.ended else false]);
    DrainKeeps(down, e.tool, e.out, e.err);
    var d := DrainStep(down, e.tool, e.out, e.err);
    if e.tool in d.outputCapped {
      FinishKeeps(parse, d, e.tool, OutputTooLarge, "");
    } else if e.Error? {
      var cut := e.tool in d.timedOut;
      FinishKeeps(parse, d, e.tool, ToolExitStatus(cut, true), if cut then "" else Buffered(d.errBuf, e.tool));
    } else {
      var status := ToolExitStatus(e.tool in d.timedOut, e.crashExit);
      var raw := if status == TimedOut then ""
          else MergeChannels(Buffered(d.outBuf, e.tool), Buffered(d.errBuf, e.tool));
      FinishKeeps(parse, d.(outBuf := d.outBuf - {e.tool}, errBuf := d.errBuf - {e.tool}), e.tool, status, raw);
    }
  }

  lemma StepKeepsResults(parse: Parser, s: State, e: Event)
    requires Enabled(s, e)
    ensures Keeps(s.byTool, Step(parse, s, e).byTool)
  {
    match e
    case Finished(_, _, _, _) => EndedKeeps(parse, s, e);
    case Error(_, _, _, _) => EndedKeeps(parse, s, e);
    case GraceOver(tool) => FinishKeeps(parse, s, tool, TimedOut, "");
    case Output(t, out, err) => DrainKeeps(s, t, out, err);
    case AggregateCap => assert s.byTool.Keys !! Unfinished(s);
    case Spawn(_) =>
    case EndSpawn =>
    case ToolCap(_) =>
    case Leave =>
  }

  lemma {:induction false} KeepsAlong(results: seq<map<Tool, ToolResult>>, j: nat, k: nat)
    requires j <= k < |results|
    requires forall m | 0 < m < |results| :: Keeps(results[m - 1], results[m])
    ensures Keeps(results[j], results[k])
  {
    if j < k {
      KeepsAlong(results, j, k - 1);
      assert Keeps(results[k - 1], results[k]);
    }
  }

  // The first event that records a tool decides; no later one changes it.
  lemma FirstResultStands(parse: Parser, trace: seq<State>, events: seq<Event>, j: nat, k: nat)
    requires Run(parse, trace, events) && j <= k < |trace|
    ensures Keeps(trace[j].byTool, trace[k].byTool)
  {
    var results := seq(|trace|, m requires 0 <= m < |trace| => trace[m].byTool);
    forall m | 0 < m < |results| ensures Keeps(results[m - 1], results[m]) {
      StepKeepsResults(parse, trace[m - 1], events[m - 1]);
    }
    KeepsAlong(results, j, k);
  }

  // The loop is never left waiting: while a result is owed the aggregate cap
  // can still fire, and once none is owed the loop can leave.
  lemma LoopCanEnd(parse: Parser, trace: seq<State>, events: seq<Event>, k: nat)
    requires Run(parse, trace, events) && k < |trace| && trace[k].phase == Looping
    ensures Enabled(trace[k], AggregateCap)
    ensures Enabled(Step(parse, trace[k], AggregateCap), Leave)
    ensures Step(parse, trace[k], AggregateCap).pending == 0
    ensures trace[k].pending <= 0 ==> Enabled(trace[k], Leave)
  {
    Reachable(parse, trace, events, k);
    AggregateCounts(parse, trace[k]);
  }

  ghost predicate Bounded(s: State, tool: Tool) {
    |Buffered(s.outBuf, tool)| + |Buffered(s.errBuf, tool)| <= MAX_TOOL_OUTPUT
  }

  lemma DrainBounds(s: State, drained: Tool, out: string, err: string, tool: Tool)
    requires Bounded(s, tool)
    ensures Bounded(DrainStep(s, drained, out, err), tool)
  {
  }

  lemma FinishKeepsBuffers(parse: Parser, s: State, tool: Tool, status: Status, raw: string)
    ensures FinishStep(parse, s, tool, status, raw).outBuf == s.outBuf
    ensures FinishStep(parse, s, tool, status, raw).errBuf == s.errBuf
  {
  }

  lemma FinishedBounds(parse: Parser, s: State, t: Tool, out: string, err: string, crashExit: bool, tool: Tool)
    requires Bounded(s, tool)
    ensures Bounded(FinishedStep(parse, s, t, out, err, crashExit), tool)
  {
    var down := s.(running := s.running[t := false]);
    DrainBounds(down, t, out, err, tool);
    var d := DrainStep(down, t, out, err);
    if t in d.outputCapped {
      FinishKeepsBuffers(parse, d, t, OutputTooLarge, "");
    } else {
      var status := ToolExitStatus(t in d.timedOut, crashExit);
      var raw := if status == TimedOut then "" else MergeChannels(Buffered(d.outBuf, t), Buffered(d.errBuf, t));
      var f := d.(outBuf := d.outBuf - {t}, errBuf := d.errBuf - {t});
      assert Bounded(f, tool);
      FinishKeepsBuffers(parse, f, t, status, raw);
    }
  }

  lemma ErrorBounds(parse: Parser, s: State, t: Tool, out: string, err: string, ended: bool, tool: Tool)
    requires Bounded(s, tool) && t in s.running
    ensures Bounded(ErrorStep(parse, s, t, out, err, ended), tool)
  {
    var down := s.(running := s.running[t := s.running[t] && !ended]);
    DrainBounds(down, t, out, err, tool);
    var d := DrainStep(down, t, out, err);
    FinishKeepsBuffers(parse, d, t, OutputTooLarge, "");
    var cut := t in d.timedOut;
    FinishKeepsBuffers(parse, d, t, ToolExitStatus(cut, true), if cut then "" else Buffered(d.errBuf, t));
  }

  lemma StepBounds(parse: Parser, s: State, e: Event, tool: Tool)
    requires Bounded(s, tool) && Enabled(s, e)
    ensures Bounded(Step(parse, s, e), tool)
  {
    match e
    case Output(t, out, err) => DrainBounds(s, t, out, err, tool);
    case Finished(t, out, err, crashExit) => FinishedBounds(parse, s, t, out, err, crashExit, tool);
    case Error(t, out, err, ended) => ErrorBounds(parse, s, t, out, err, ended, tool);
    case GraceOver(t) => FinishKeepsBuffers(parse, s, t, TimedOut, "");
    case _ =>
  }

  // What is buffered for a tool never passes the cap.
  lemma BuffersStayBounded(parse: Parser, trace: seq<State>, events: seq<Event>, k: nat, tool: Tool)
    requires Run(parse, trace, events) && k < |trace|
    ensures Bounded(trace[k], tool)
  {
    var good := seq(|trace|, m requires 0 <= m < |trace| => Bounded(trace[m], tool));
    forall m | 0 < m < |good| && good[m - 1] ensures good[m] {
      StepBounds(parse, trace[m - 1], events[m - 1], tool);
    }
    Along(good, k);
  }

  lemma {:induction false} Along(good: seq<bool>, k: nat)
    requires k < |good| && good[0]
    requires forall m | 0 < m < |good| && good[m - 1] :: good[m]
    ensures good[k]
  {
    if k > 0 {
      Along(good, k - 1);
    }
  }

  // --------------------------------------------------------- in-process lanes

  datatype LaneOutcome = LaneOutcome(id: Tool, status: Status, output: string)

  function Ids(lanes: seq<LaneOutcome>): set<Tool> {
    if lanes == [] then {} else {lanes[0].id} + Ids(lanes[1..])
  }

  // After the loop every lane outcome goes through the same `finish`.
  function FinishLanes(parse: Parser, s: State, lanes: seq<LaneOutcome>): State
    decreases |lanes|
  {
    if lanes == [] then s
    else FinishLanes(parse, FinishStep(parse, s, lanes[0].id, lanes[0].status, lanes[0].output), lanes[1..])
  }

  lemma FinishAdds(parse: Parser, s: State, tool: Tool, status: Status, raw: string)
    ensures var u := FinishStep(parse, s, tool, status, raw);
            && u.byTool.Keys == s.byTool.Keys + {tool}
            && (forall t | t in s.byTool :: t in u.byTool && u.byTool[t] == s.byTool[t])
            && s.pending - u.pending == |u.byTool.Keys| - |s.byTool.Keys|
  {
    var u := FinishStep(parse, s, tool, status, raw);
    assert u.byTool.Keys == s.byTool.Keys + {tool};
    if tool !in s.byTool {
      assert |s.byTool.Keys + {tool}| == |s.byTool.Keys| + 1;
    }
  }

  // Lane results join the tools' and change none of them.
  lemma {:induction false} LanesJoinTheTools(parse: Parser, s: State, lanes: seq<LaneOutcome>)
    ensures var t := FinishLanes(parse, s, lanes);
            && t.byTool.Keys == s.byTool.Keys + Ids(lanes)
            && (forall tool | tool in s.byTool :: tool in t.byTool && t.byTool[tool] == s.byTool[tool])
    decreases |lanes|
  {
    if lanes != [] {
      var u := FinishStep(parse, s, lanes[0].id, lanes[0].status, lanes[0].output);
      FinishAdds(parse, s, lanes[0].id, lanes[0].status, lanes[0].output);
      LanesJoinTheTools(parse, u, lanes[1..]);
      var t := FinishLanes(parse, u, lanes[1..]);
      assert t.byTool.Keys == s.byTool.Keys + ({lanes[0].id} + Ids(lanes[1..]));
      forall tool | tool in s.byTool ensures tool in t.byTool && t.byTool[tool] == s.byTool[tool] {
        assert tool in u.byTool;
      }
    }
  }

  // Each lane result costs the counter one, below zero when nothing was owed.
  lemma {:induction false} LanesAreCounted(parse: Parser, s: State, lanes: seq<LaneOutcome>)
    ensures var t := FinishLanes(parse, s, lanes);
            s.pending - t.pending == |t.byTool.Keys| - |s.byTool.Keys|
    decreases |lanes|
  {
    if lanes != [] {
      FinishAdds(parse, s, lanes[0].id, lanes[0].status, lanes[0].output);
      LanesAreCounted(parse, FinishStep(parse, s, lanes[0].id, lanes[0].status, lanes[0].output), lanes[1..]);
    }
  }

  // A lane that timed out reports nothing either.
  lemma {:induction false} CutLanesReportNothing(parse: Parser, s: State, lanes: seq<LaneOutcome>)
    requires BlankIsEmpty(parse) && AllCutEmpty(s.byTool)
    requires forall k | 0 <= k < |lanes| :: lanes[k].status != Ok ==> lanes[k].output == ""
    ensures AllCutEmpty(FinishLanes(parse, s, lanes).byTool)
    decreases |lanes|
  {
    if lanes != [] {
      var o := lanes[0];
      assert o.status != Ok ==> o.output == "";
      FinishKeepsCutEmpty(parse, s, o.id, o.status, o.output);
      CutLanesReportNothing(parse, FinishStep(parse, s, o.id, o.status, o.output), lanes[1..]);
    }
  }

  // ------------------------------------------------------------- the callbacks

  // The locals of the run that its callbacks share.
  class Sweep {
    const parse: Parser
    var phase: Phase
    var running: map<Tool, bool>
    var byTool: map<Tool, ToolResult>
    var pending: int
    var timedOut: set<Tool>
    var outputCapped: set<Tool>
    var outBuf: map<Tool, string>
    var errBuf: map<Tool, string>
    var quit: bool

    ghost function Abs(): State
      reads this
    {
      State(phase, running, byTool, pending, timedOut, outputCapped, outBuf, errBuf, quit)
    }

    constructor (parse: Parser)
      ensures this.parse == parse && Abs() == INIT
    {
      this.parse := parse;
      phase, running, byTool, pending := Spawning, map[], map[], 0;
      timedOut, outputCapped, outBuf, errBuf, quit := {}, {}, map[], map[], false;
    }

    method Finish(tool: Tool, status: Status, raw: string)
      modifies this
      ensures Abs() == FinishStep(parse, old(Abs()), tool, status, raw)
    {
      if tool in byTool {
        return;
      }
      var parsed := parse(tool, raw);
      var result := ToolResult(status, parsed.rawCount, parsed.rawCount - parsed.suppressedCount, parsed.samples,
          parsed.findings);
      if status == Ok && parsed.aborted {
        result := result.(status := Crashed);
      }
      byTool := byTool[tool := result];
      pending := pending - 1;
      if pending <= 0 {
        quit := true;
      }
    }

    method Drain(tool: Tool, out: string, err: string)
      modifies this
      ensures Abs() == DrainStep(old(Abs()), tool, out, err)
    {
      if tool in outputCapped {
        return;
      }
      outBuf := outBuf[tool := Buffered(outBuf, tool) + out];
      errBuf := errBuf[tool := Buffered(errBuf, tool) + err];
      if |outBuf[tool]| + |errBuf[tool]| <= MAX_TOOL_OUTPUT {
        return;
      }
      outputCapped := outputCapped + {tool};
      outBuf := outBuf - {tool};
      errBuf := errBuf - {tool};
      assert outBuf == old(outBuf) - {tool} && errBuf == old(errBuf) - {tool};
    }

    method OnFinished(tool: Tool, out: string, err: string, crashExit: bool)
      modifies this
      ensures Abs() == FinishedStep(parse, old(Abs()), tool, out, err, crashExit)
    {
      running := running[tool := false];
      Drain(tool, out, err);
      if tool in outputCapped {
        Finish(tool, OutputTooLarge, "");
        return;
      }
      var status := ToolExitStatus(tool in timedOut, crashExit);
      var raw := MergeChannels(Buffered(outBuf, tool), Buffered(errBuf, tool));
      outBuf := outBuf - {tool};
      errBuf := errBuf - {tool};
      Finish(tool, status, if status == TimedOut then "" else raw);
    }

    method OnError(tool: Tool, out: string, err: string, ended: bool)
      requires tool in running
      modifies this
      ensures Abs() == ErrorStep(parse, old(Abs()), tool, out, err, ended)
    {
      running := running[tool := running[tool] && !ended];
      Drain(tool, out, err);
      if tool in outputCapped {
        Finish(tool, OutputTooLarge, "");
        return;
      }
      var cut := tool in timedOut;
      Finish(tool, ToolExitStatus(cut, true), if cut then "" else Buffered(errBuf, tool));
    }

    method OnToolCap(tool: Tool)
      requires Enabled(Abs(), ToolCap(tool))
      modifies this
      ensures Abs() == Step(parse, old(Abs()), ToolCap(tool))
    {
      if !running[tool] {
        return;
      }
      timedOut := timedOut + {tool};
    }

    // Ends every running tool, one after the other.
    method OnAggregateCap()
      modifies this
      ensures Abs() == AggregateStep(parse, old(Abs()))
    {
      ghost var was := Abs();
      var todo := running.Keys;
      NoneEnded(parse, was);
      while todo != {}
        invariant EndedOutside(parse, was, Abs(), todo)
        decreases |todo|
      {
        var tool :| tool in todo;
        EndOneMore(parse, was, Abs(), todo, tool);
        todo := todo - {tool};
        if running[tool] && tool !in byTool {
          Finish(tool, TimedOut, "");
        }
      }
      quit := true;
      AllEnded(parse, was, Abs());
    }
  }

  // The aggregate cap is through with every tool outside `todo`.
  ghost predicate EndedOutside(parse: Parser, was: State, s: State, todo: set<Tool>) {
    && todo <= was.running.Keys
    && s == EndSome(parse, was, Unfinished(was) - todo).(quit := s.quit)
  }

  // The state after the tools in `ended` were ended by the aggregate cap.
  ghost function EndSome(parse: Parser, was: State, ended: set<Tool>): State {
    was.(byTool := was.byTool + CutResults(parse, ended), pending := was.pending - |ended|)
  }

  lemma NoneEnded(parse: Parser, was: State)
    ensures EndedOutside(parse, was, was, was.running.Keys)
  {
    assert Unfinished(was) - was.running.Keys == {};
    assert was.byTool + CutResults(parse, {}) == was.byTool;
  }

  lemma AllEnded(parse: Parser, was: State, s: State)
    requires EndedOutside(parse, was, s, {}) && s.quit
    ensures s == AggregateStep(parse, was)
  {
    assert Unfinished(was) - {} == Unfinished(was);
  }

  lemma OneMoreResult(parse: Parser, was: map<Tool, ToolResult>, ended: set<Tool>, tool: Tool)
    ensures was + CutResults(parse, ended + {tool})
         == (was + CutResults(parse, ended))[tool := ResultOf(parse, tool, TimedOut, "")]
  {
  }

  lemma EndOneMore(parse: Parser, was: State, s: State, todo: set<Tool>, tool: Tool)
    requires EndedOutside(parse, was, s, todo) && tool in todo
    ensures tool in s.running
    ensures s.running[tool] && tool !in s.byTool
         ==> EndedOutside(parse, was, FinishStep(parse, s, tool, TimedOut, ""), todo - {tool})
    ensures !(s.running[tool] && tool !in s.byTool) ==> EndedOutside(parse, was, s, todo - {tool})
  {
    StillUnfinished(parse, was, s, todo, tool);
    if tool in Unfinished(was) {
      EndThis(parse, was, s, todo, tool);
    } else {
      SkipThis(parse, was, s, todo, tool);
    }
  }

  lemma SkipThis(parse: Parser, was: State, s: State, todo: set<Tool>, tool: Tool)
    requires EndedOutside(parse, was, s, todo) && tool !in Unfinished(was)
    ensures EndedOutside(parse, was, s, todo - {tool})
  {
    assert Unfinished(was) - (todo - {tool}) == Unfinished(was) - todo;
  }

  lemma StillUnfinished(parse: Parser, was: State, s: State, todo: set<Tool>, tool: Tool)
    requires EndedOutside(parse, was, s, todo) && tool in todo
    ensures tool in s.running && s.running == was.running
    ensures s.running[tool] && tool !in s.byTool <==> tool in Unfinished(was)
  {
    assert tool in s.byTool <==> tool in was.byTool;
  }

  lemma EndThis(parse: Parser, was: State, s: State, todo: set<Tool>, tool: Tool)
    requires EndedOutside(parse, was, s, todo) && tool in todo && tool in Unfinished(was)
    ensures EndedOutside(parse, was, FinishStep(parse, s, tool, TimedOut, ""), todo - {tool})
  {
    var ended := Unfinished(was) - todo;
    assert Unfinished(was) - (todo - {tool}) == ended + {tool};
    EndExtends(parse, was, s, ended, tool);
  }

  lemma EndExtends(parse: Parser, was: State, s: State, ended: set<Tool>, tool: Tool)
    requires s == EndSome(parse, was, ended).(quit := s.quit)
    requires tool !in ended && tool in Unfinished(was)
    ensures tool !in s.byTool && tool in s.running && s.running[tool]
    ensures var t := FinishStep(parse, s, tool, TimedOut, ""); t == EndSome(parse, was, ended + {tool}).(quit := t.quit)
  {
    assert |ended + {tool}| == |ended| + 1;
    OneMoreResult(parse, was.byTool, ended, tool);
    assert s.byTool.Keys == was.byTool.Keys + ended;
  }
}
