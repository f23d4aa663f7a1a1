/** What status a tool gets and what of it is parsed, told by the events alone. */
module SweepStatus {
  import opened Chars
  import opened Multiplexer

  // What a tool printed on each channel, over the events that deliver it.
  function Printed(events: seq<Event>, tool: Tool, stderr: bool): string {
    if events == [] then ""
    else Printed(events[..|events| - 1], tool, stderr) + PrintedBy(events[|events| - 1], tool, stderr)
  }

  function PrintedBy(e: Event, tool: Tool, stderr: bool): string {
    if (e.Output? || e.Finished? || e.Error?) && e.tool == tool then if stderr then e.err else e.out else ""
  }

  // More than 64 MiB on the two channels together.
  predicate TooLarge(out: string, err: string) {
    |out| + |err| > 67_108_864
  }

  // What is parsed of a tool that exits: one channel, or both when both have text.
  predicate IsText(raw: string, out: string, err: string) {
    && (Blank(out) ==> raw == err)
    && (!Blank(out) && err == "" ==> raw == out)
    && (!Blank(out) && err != "" ==> raw == out + "\n" + err)
  }

  predicate Reports(r: ToolResult, p: Parsed) {
    && r.rawCount == p.rawCount && r.afterFilterCount == p.rawCount - p.suppressedCount
    && r.samples == p.samples && r.findings == p.findings
  }

  // The process says that it ended, or that it could not go on.
  predicate Exits(e: Event, tool: Tool) {
    (e.Finished? || e.Error?) && e.tool == tool
  }

  // -------------------------------------------------------- a tool without result

  // What the state holds of a tool that has no result yet.
  ghost predicate Holds(s: State, tool: Tool, out: string, err: string, signalled: bool) {
    && (tool in s.timedOut <==> signalled)
    && (if TooLarge(out, err) then tool in s.outputCapped
        else tool !in s.outputCapped && Buffered(s.outBuf, tool) == out && Buffered(s.errBuf, tool) == err)
  }

  lemma DrainHolds(s: State, tool: Tool, out: string, err: string, signalled: bool, out': string, err': string)
    requires Holds(s, tool, out, err, signalled)
    ensures Holds(DrainStep(s, tool, out', err'), tool, out + out', err + err', signalled)
  {
  }

  lemma OtherDrainHolds(s: State, other: Tool, o: string, r: string, tool: Tool, out: string, err: string,
      signalled: bool)
    requires Holds(s, tool, out, err, signalled) && other != tool
    ensures Holds(DrainStep(s, other, o, r), tool, out, err, signalled)
  {
  }

  lemma FinishHolds(parse: Parser, s: State, other: Tool, status: Status, raw: string, tool: Tool, out: string,
      err: string, signalled: bool)
    requires Holds(s, tool, out, err, signalled)
    ensures Holds(FinishStep(parse, s, other, status, raw), tool, out, err, signalled)
  {
  }

  lemma OtherFinishedHolds(parse: Parser, s: State, other: Tool, o: string, r: string, crashExit: bool, tool: Tool,
      out: string, err: string, signalled: bool)
    requires Holds(s, tool, out, err, signalled) && other != tool
    ensures Holds(FinishedStep(parse, s, other, o, r, crashExit), tool, out, err, signalled)
  {
    var down := s.(running := s.running[other := false]);
    OtherDrainHolds(down, other, o, r, tool, out, err, signalled);
    var d := DrainStep(down, other, o, r);
    if other in d.outputCapped {
      FinishHolds(parse, d, other, OutputTooLarge, "", tool, out, err, signalled);
    } else {
      var status := ToolExitStatus(other in d.timedOut, crashExit);
      var raw := MergeChannels(Buffered(d.outBuf, other), Buffered(d.errBuf, other));
      FinishHolds(parse, d.(outBuf := d.outBuf - {other}, errBuf := d.errBuf - {other}), other, status,
          if status == TimedOut then "" else raw, tool, out, err, signalled);
    }
  }

  lemma OtherErrorHolds(parse: Parser, s: State, other: Tool, o: string, r: string, ended: bool, tool: Tool,
      out: string, err: string, signalled: bool)
    requires Holds(s, tool, out, err, signalled) && other != tool && other in s.running
    ensures Holds(ErrorStep(parse, s, other, o, r, ended), tool, out, err, signalled)
  {
    var down := s.(running := s.running[other := s.running[other] && !ended]);
    OtherDrainHolds(down, other, o, r, tool, out, err, signalled);
    var d := DrainStep(down, other, o, r);
    var cut := other in d.timedOut;
    FinishHolds(parse, d, other, OutputTooLarge, "", tool, out, err, signalled);
    FinishHolds(parse, d, other, ToolExitStatus(cut, true), if cut then "" else Buffered(d.errBuf, other), tool, out,
        err, signalled);
  }

  lemma OutputHolds(s: State, other: Tool, o: string, r: string, tool: Tool, out: string, err: string,
      signalled: bool)
    requires Holds(s, tool, out, err, signalled)
    ensures Holds(DrainStep(s, other, o, r), tool, out + (if other == tool then o else ""),
                  err + (if other == tool then r else ""), signalled)
  {
    if other == tool {
      DrainHolds(s, tool, out, err, signalled, o, r);
    } else {
      assert out + "" == out && err + "" == err;
      OtherDrainHolds(s, other, o, r, tool, out, err, signalled);
    }
  }

  // Any event but the tool's own exit and output.
  lemma SilentHolds(parse: Parser, s: State, e: Event, tool: Tool, out: string, err: string, signalled: bool)
    requires Enabled(s, e) && Holds(s, tool, out, err, signalled) && !Exits(e, tool) && !e.Output?
    requires tool in s.running ==> s.running[tool]
    ensures Holds(Step(parse, s, e), tool, out, err, signalled || e == ToolCap(tool))
  {
    match e
    case Finished(other, o, r, crash) => OtherFinishedHolds(parse, s, other, o, r, crash, tool, out, err, signalled);
    case Error(other, o, r, ended) => OtherErrorHolds(parse, s, other, o, r, ended, tool, out, err, signalled);
    case GraceOver(other) => FinishHolds(parse, s, other, TimedOut, "", tool, out, err, signalled);
    case _ =>
  }

  lemma StepHolds(parse: Parser, s: State, e: Event, tool: Tool, out: string, err: string, signalled: bool)
    requires Enabled(s, e) && Holds(s, tool, out, err, signalled) && !Exits(e, tool)
    requires tool in s.running ==> s.running[tool]
    ensures Holds(Step(parse, s, e), tool, out + PrintedBy(e, tool, false), err + PrintedBy(e, tool, true),
                  signalled || e == ToolCap(tool))
  {
    if e.Output? {
      OutputHolds(s, e.tool, e.out, e.err, tool, out, err, signalled);
    } else {
      assert out + "" == out && err + "" == err;
      SilentHolds(parse, s, e, tool, out, err, signalled);
    }
  }

  // The state after the first k events holds what they printed.
  ghost predicate HoldsAfter(s: State, events: seq<Event>, k: nat, tool: Tool)
    requires k <= |events|
  {
    Holds(s, tool, Printed(events[..k], tool, false), Printed(events[..k], tool, true), ToolCap(tool) in events[..k])
  }

  ghost predicate HeldOrRecorded(s: State, events: seq<Event>, k: nat, tool: Tool)
    requires k <= |events|
  {
    tool in s.byTool || HoldsAfter(s, events, k, tool)
  }

  lemma HoldsUntilRecorded(parse: Parser, trace: seq<State>, events: seq<Event>, k: nat, tool: Tool)
    requires Run(parse, trace, events) && k < |trace|
    ensures HeldOrRecorded(trace[k], events, k, tool)
  {
    var good := seq(|trace|, m requires 0 <= m < |trace| => HeldOrRecorded(trace[m], events, m, tool));
    HoldsAtStart(events, tool);
    forall m | 0 < m < |good| && good[m - 1] ensures good[m] {
      Reachable(parse, trace, events, m - 1);
      HoldsOneMore(parse, trace[m - 1], trace[m], events, m - 1, tool);
    }
    Along(good, k);
  }

  lemma HoldsAtStart(events: seq<Event>, tool: Tool)
    ensures HoldsAfter(INIT, events, 0, tool)
  {
    assert events[..0] == [];
  }

  lemma HoldsOneMore(parse: Parser, s: State, t: State, events: seq<Event>, k: nat, tool: Tool)
    requires k < |events| && Counted(s, {}) && Enabled(s, events[k]) && t == Step(parse, s, events[k])
    requires HeldOrRecorded(s, events, k, tool)
    ensures HeldOrRecorded(t, events, k + 1, tool)
  {
    StepKeepsResults(parse, s, events[k]);
    if tool !in t.byTool {
      if Exits(events[k], tool) {
        ExitRecords(parse, s, events[k], tool);
      }
      OneMoreEvent(events, k, tool);
      StepHolds(parse, s, events[k], tool, Printed(events[..k], tool, false), Printed(events[..k], tool, true),
          ToolCap(tool) in events[..k]);
    }
  }

  lemma OneMoreEvent(events: seq<Event>, k: nat, tool: Tool)
    requires k < |events|
    ensures ToolCap(tool) in events[..k + 1] <==> ToolCap(tool) in events[..k] || events[k] == ToolCap(tool)
    ensures forall stderr :: Printed(events[..k + 1], tool, stderr)
                          == Printed(events[..k], tool, stderr) + PrintedBy(events[k], tool, stderr)
  {
    assert events[..k + 1] == events[..k] + [events[k]] && events[..k + 1][..k] == events[..k];
  }

  lemma ExitRecords(parse: Parser, s: State, e: Event, tool: Tool)
    requires Counted(s, {}) && Enabled(s, e) && Exits(e, tool)
    ensures tool in Step(parse, s, e).byTool
  {
    if e.Finished? {
      FinishedCounts(parse, s, tool, e.out, e.err, e.crashExit);
    } else {
      ErrorCounts(parse, s, tool, e.out, e.err, e.ended);
    }
  }

  // ------------------------------------------------------------ the result

  // The status an event records, for what the tool had printed by then and
  // whether its cap had signalled it; `raw` is the text that would be parsed.
  ghost predicate Tells(parse: Parser, r: ToolResult, e: Event, tool: Tool, out: string, err: string, signalled: bool,
      raw: string) {
    var cut := TooLarge(out, err) || signalled;
    var aborted := parse(tool, raw).aborted;
    && (e.Finished? ==> IsText(raw, out, err)) && (e.Error? ==> raw == err)
    && (r.status == OutputTooLarge <==> Exits(e, tool) && TooLarge(out, err))
    && (r.status == TimedOut <==> !Exits(e, tool) || (signalled && !TooLarge(out, err)))
    && (r.status == Ok <==> e.Finished? && e.tool == tool && !e.crashExit && !cut && !aborted)
    && (r.status == Crashed <==> Exits(e, tool) && !cut && (e.Error? || e.crashExit || aborted))
    && Reports(r, parse(tool, if Exits(e, tool) && !cut then raw else ""))
  }

  // A result recorded with this status and this text.
  ghost predicate ResultIs(parse: Parser, r: ToolResult, tool: Tool, status: Status, raw: string) {
    Reports(r, parse(tool, raw)) && r.status == if status == Ok && parse(tool, raw).aborted then Crashed else status
  }

  lemma FinishTells(parse: Parser, s: State, tool: Tool, status: Status, raw: string)
    requires tool !in s.byTool
    ensures var t := FinishStep(parse, s, tool, status, raw);
            tool in t.byTool && ResultIs(parse, t.byTool[tool], tool, status, raw)
  {
  }

  // An exit is recorded as too large, else as timed out, else as it was.
  ghost predicate ExitIs(parse: Parser, r: ToolResult, tool: Tool, tooLarge: bool, signalled: bool, status: Status,
      raw: string) {
    if tooLarge then ResultIs(parse, r, tool, OutputTooLarge, "")
    else if signalled then ResultIs(parse, r, tool, TimedOut, "")
    else ResultIs(parse, r, tool, status, raw)
  }

  lemma FinishedIs(parse: Parser, s: State, e: Event, tool: Tool, out: string, err: string, signalled: bool,
      raw: string)
    requires e.Finished? && e.tool == tool && tool !in s.byTool && Holds(s, tool, out, err, signalled)
    requires IsText(raw, out + e.out, err + e.err)
    ensures var t := FinishedStep(parse, s, tool, e.out, e.err, e.crashExit);
            && tool in t.byTool
            && ExitIs(parse, t.byTool[tool], tool, TooLarge(out + e.out, err + e.err), signalled,
                      if e.crashExit then Crashed else Ok, raw)
  {
    var down := s.(running := s.running[tool := false]);
    DrainHolds(down, tool, out, err, signalled, e.out, e.err);
    DrainKeeps(down, tool, e.out, e.err);
    var d := DrainStep(down, tool, e.out, e.err);
    if TooLarge(out + e.out, err + e.err) {
      FinishTells(parse, d, tool, OutputTooLarge, "");
    } else {
      var status := ToolExitStatus(signalled, e.crashExit);
      assert MergeChannels(out + e.out, err + e.err) == raw;
      FinishTells(parse, d.(outBuf := d.outBuf - {tool}, errBuf := d.errBuf - {tool}), tool, status,
          if status == TimedOut then "" else raw);
    }
  }

  lemma FinishedTells(parse: Parser, s: State, e: Event, tool: Tool, out: string, err: string, signalled: bool)
    returns (raw: string)
    requires e.Finished? && e.tool == tool && tool !in s.byTool && Holds(s, tool, out, err, signalled)
    ensures var t := FinishedStep(parse, s, tool, e.out, e.err, e.crashExit);
            tool in t.byTool && Tells(parse, t.byTool[tool], e, tool, out + e.out, err + e.err, signalled, raw)
  {
    raw := TextOf(out + e.out, err + e.err);
    FinishedIs(parse, s, e, tool, out, err, signalled, raw);
    ExitTells(parse, FinishedStep(parse, s, tool, e.out, e.err, e.crashExit).byTool[tool], e, tool, out + e.out,
        err + e.err, signalled, raw);
  }

  lemma TextOf(out: string, err: string) returns (raw: string)
    ensures IsText(raw, out, err)
  {
    raw := if Blank(out) then err else if err == "" then out else out + "\n" + err;
  }

  lemma ExitTells(parse: Parser, r: ToolResult, e: Event, tool: Tool, out: string, err: string, signalled: bool,
      raw: string)
    requires Exits(e, tool) && (if e.Finished? then IsText(raw, out, err) else raw == err)
    requires ExitIs(parse, r, tool, TooLarge(out, err), signalled,
                    if e.Error? || e.crashExit then Crashed else Ok, raw)
    ensures Tells(parse, r, e, tool, out, err, signalled, raw)
  {
  }

  lemma ErrorTells(parse: Parser, s: State, e: Event, tool: Tool, out: string, err: string, signalled: bool)
    requires e.Error? && e.tool == tool && tool in s.running && tool !in s.byTool && Holds(s, tool, out, err, signalled)
    ensures var t := ErrorStep(parse, s, tool, e.out, e.err, e.ended);
            tool in t.byTool && Tells(parse, t.byTool[tool], e, tool, out + e.out, err + e.err, signalled, err + e.err)
  {
    ErrorIs(parse, s, e, tool, out, err, signalled);
    ExitTells(parse, ErrorStep(parse, s, tool, e.out, e.err, e.ended).byTool[tool], e, tool, out + e.out,
        err + e.err, signalled, err + e.err);
  }

  lemma ErrorIs(parse: Parser, s: State, e: Event, tool: Tool, out: string, err: string, signalled: bool)
    requires e.Error? && e.tool == tool && tool in s.running && tool !in s.byTool && Holds(s, tool, out, err, signalled)
    ensures var t := ErrorStep(parse, s, tool, e.out, e.err, e.ended);
            && tool in t.byTool
            && ExitIs(parse, t.byTool[tool], tool, TooLarge(out + e.out, err + e.err), signalled, Crashed,
                      err + e.err)
  {
    var down := s.(running := s.running[tool := s.running[tool] && !e.ended]);
    DrainHolds(down, tool, out, err, signalled, e.out, e.err);
    DrainKeeps(down, tool, e.out, e.err);
    var d := DrainStep(down, tool, e.out, e.err);
    if TooLarge(out + e.out, err + e.err) {
      FinishTells(parse, d, tool, OutputTooLarge, "");
    } else {
      FinishTells(parse, d, tool, ToolExitStatus(signalled, true), if signalled then "" else err + e.err);
    }
  }

  // Only its own exit, the end of its grace and the aggregate cap record a tool.
  ghost predicate Records(e: Event, tool: Tool) {
    Exits(e, tool) || e == GraceOver(tool) || e == AggregateCap
  }

  lemma FinishedKeys(parse: Parser, s: State, other: Tool, o: string, r: string, crashExit: bool)
    ensures FinishedStep(parse, s, other, o, r, crashExit).byTool.Keys <= s.byTool.Keys + {other}
  {
    var down := s.(running := s.running[other := false]);
    DrainKeeps(down, other, o, r);
    var d := DrainStep(down, other, o, r);
    if other in d.outputCapped {
      FinishAdds(parse, d, other, OutputTooLarge, "");
    } else {
      var status := ToolExitStatus(other in d.timedOut, crashExit);
      var raw := MergeChannels(Buffered(d.outBuf, other), Buffered(d.errBuf, other));
      FinishAdds(parse, d.(outBuf := d.outBuf - {other}, errBuf := d.errBuf - {other}), other, status,
          if status == TimedOut then "" else raw);
    }
  }

  lemma ErrorKeys(parse: Parser, s: State, other: Tool, o: string, r: string, ended: bool)
    requires other in s.running
    ensures ErrorStep(parse, s, other, o, r, ended).byTool.Keys <= s.byTool.Keys + {other}
  {
    var down := s.(running := s.running[other := s.running[other] && !ended]);
    DrainKeeps(down, other, o, r);
    var d := DrainStep(down, other, o, r);
    var cut := other in d.timedOut;
    FinishAdds(parse, d, other, OutputTooLarge, "");
    FinishAdds(parse, d, other, ToolExitStatus(cut, true), if cut then "" else Buffered(d.errBuf, other));
  }

  lemma OthersRecordNothing(parse: Parser, s: State, e: Event, tool: Tool)
    requires Enabled(s, e) && tool !in s.byTool && tool in Step(parse, s, e).byTool
    ensures Records(e, tool)
  {
    match e
    case Finished(other, o, r, crashExit) => FinishedKeys(parse, s, other, o, r, crashExit);
    case Error(other, o, r, ended) => ErrorKeys(parse, s, other, o, r, ended);
    case Output(other, o, r) => DrainKeeps(s, other, o, r);
    case GraceOver(other) => FinishAdds(parse, s, other, TimedOut, "");
    case _ =>
  }

  lemma StepTells(parse: Parser, s: State, e: Event, tool: Tool, out: string, err: string, signalled: bool)
    returns (raw: string)
    requires Enabled(s, e) && tool !in s.byTool && tool in Step(parse, s, e).byTool
    requires Holds(s, tool, out, err, signalled)
    ensures Records(e, tool)
    ensures Tells(parse, Step(parse, s, e).byTool[tool], e, tool, out + PrintedBy(e, tool, false),
                  err + PrintedBy(e, tool, true), signalled, raw)
  {
    OthersRecordNothing(parse, s, e, tool);
    raw := "";
    match e
    case Finished(_, _, _, _) => raw := FinishedTells(parse, s, e, tool, out, err, signalled);
    case Error(_, _, _, _) =>
      raw := err + e.err;
      ErrorTells(parse, s, e, tool, out, err, signalled);
    case GraceOver(_) => FinishTells(parse, s, tool, TimedOut, "");
    case AggregateCap => assert tool in Unfinished(s);
  }

  // The event that recorded a tool's result.
  lemma {:induction false} WhenRecorded(parse: Parser, trace: seq<State>, events: seq<Event>, k: nat, tool: Tool)
    returns (m: nat)
    requires Run(parse, trace, events) && k < |trace| && tool in trace[k].byTool
    ensures m < k && tool !in trace[m].byTool && tool in trace[m + 1].byTool
    ensures trace[m + 1].byTool[tool] == trace[k].byTool[tool]
  {
    assert k > 0;
    if tool in trace[k - 1].byTool {
      m := WhenRecorded(parse, trace, events, k - 1, tool);
      StepKeepsResults(parse, trace[k - 1], events[k - 1]);
    } else {
      m := k - 1;
    }
  }

  // Over every order of events: a recorded status is told by the event that
  // recorded it, the tool's own cap before it, and what the tool had printed.
  lemma StatusTells(parse: Parser, trace: seq<State>, events: seq<Event>, k: nat, tool: Tool)
    returns (m: nat, raw: string)
    requires Run(parse, trace, events) && k < |trace| && tool in trace[k].byTool
    ensures m < k && tool !in trace[m].byTool && tool in trace[m + 1].byTool
    ensures Records(events[m], tool)
    ensures Tells(parse, trace[k].byTool[tool], events[m], tool, Printed(events[..m + 1], tool, false),
                  Printed(events[..m + 1], tool, true), ToolCap(tool) in events[..m], raw)
  {
    m := WhenRecorded(parse, trace, events, k, tool);
    HoldsUntilRecorded(parse, trace, events, m, tool);
    OneMoreEvent(events, m, tool);
    raw := StepTells(parse, trace[m], events[m], tool, Printed(events[..m], tool, false),
        Printed(events[..m], tool, true), ToolCap(tool) in events[..m]);
  }

  // --------------------------------------------------------- in-process lanes

  // The first lane of its name, when no tool has it, is reported as it ended:
  // its own status, unless its output says that it gave up.
  lemma {:induction false} LaneTells(parse: Parser, s: State, lanes: seq<LaneOutcome>, k: nat)
    requires k < |lanes| && lanes[k].id !in s.byTool && forall j | 0 <= j < k :: lanes[j].id != lanes[k].id
    ensures var t := FinishLanes(parse, s, lanes);
            var o := lanes[k];
            o.id in t.byTool && ResultIs(parse, t.byTool[o.id], o.id, o.status, o.output)
    decreases |lanes|
  {
    var u := FinishStep(parse, s, lanes[0].id, lanes[0].status, lanes[0].output);
    if k == 0 {
      FinishTells(parse, s, lanes[0].id, lanes[0].status, lanes[0].output);
      LanesJoinTheTools(parse, u, lanes[1..]);
    } else {
      FinishAdds(parse, s, lanes[0].id, lanes[0].status, lanes[0].output);
      LaneTells(parse, u, lanes[1..], k - 1);
    }
  }
}
