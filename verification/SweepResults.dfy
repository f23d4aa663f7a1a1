/** The multiplexer with the real parser of a tool's output. */
module SweepResults {
  import opened Multiplexer
  import Counting

  // What a tool's output parses to, for given rules of a run.
  datatype Rules = Rules(grammar: Counting.Grammar, policy: Counting.Policy, sampleCap: int)

  ghost function ParsedOf(rules: Rules, tool: Tool, raw: string): Parsed {
    var entries := Counting.FindingEntries(rules.grammar, tool, raw);
    var tally := Counting.TallyOf(rules.policy, entries, rules.sampleCap);
    var clamped := rules.grammar.isJson(tool) && |entries| > Counting.MAX_FINDINGS;
    Parsed(if clamped then Counting.MAX_FINDINGS else |entries|, tally.suppressed, tally.findings, tally.samples,
           Counting.Aborted(rules.grammar, tool, raw))
  }

  ghost function ParserOf(rules: Rules): Parser {
    (tool, raw) => ParsedOf(rules, tool, raw)
  }

  method Parse(rules: Rules, tool: Tool, raw: string) returns (p: Parsed)
    ensures p == ParserOf(rules)(tool, raw)
  {
    var out := Counting.ParseToolOutput(rules.grammar, rules.policy, tool, raw, rules.sampleCap);
    p := Parsed(out.rawCount, out.tally.suppressed, out.tally.findings, out.tally.samples, out.aborted);
  }

  // Blank output parses to nothing, whatever the rules.
  lemma BlankParsesToNothing(rules: Rules)
    ensures BlankIsEmpty(ParserOf(rules))
  {
    forall tool ensures ParserOf(rules)(tool, "") == Parsed(0, 0, [], [], false) {
      assert Counting.FindingEntries(rules.grammar, tool, "") == [];
    }
  }

  // A tool that was cut off reports nothing, whatever it had printed and
  // whatever the rules.
  lemma {:induction false} CutToolsReportNothing(rules: Rules, trace: seq<State>, events: seq<Event>, k: nat,
      tool: Tool)
    requires Run(ParserOf(rules), trace, events) && k < |trace| && tool in trace[k].byTool
    requires trace[k].byTool[tool].status in {TimedOut, OutputTooLarge}
    ensures var r := trace[k].byTool[tool];
            r.rawCount == 0 && r.afterFilterCount == 0 && r.findings == [] && r.samples == []
  {
    BlankParsesToNothing(rules);
    Multiplexer.CutToolsReportNothing(ParserOf(rules), trace, events, k, tool);
  }

  // So does a lane that was cut off, with the lanes counted after the loop.
  lemma {:induction false} CutLanesReportNothing(rules: Rules, trace: seq<State>, events: seq<Event>, k: nat,
      lanes: seq<LaneOutcome>)
    requires Run(ParserOf(rules), trace, events) && k < |trace|
    requires forall i | 0 <= i < |lanes| :: lanes[i].status != Ok ==> lanes[i].output == ""
    ensures AllCutEmpty(FinishLanes(ParserOf(rules), trace[k], lanes).byTool)
  {
    BlankParsesToNothing(rules);
    ReachedCutEmpty(ParserOf(rules), trace, events, k);
    Multiplexer.CutLanesReportNothing(ParserOf(rules), trace[k], lanes);
  }

  // A result that was not cut tells what is left after the filter, unless the
  // clamp of the raw count was reached: then it may even be negative.
  lemma CountsAfterFilter(rules: Rules, tool: Tool, status: Status, raw: string)
    ensures var entries := Counting.FindingEntries(rules.grammar, tool, raw);
            var r := ResultOf(ParserOf(rules), tool, status, raw);
            r.afterFilterCount == |Counting.Kept(rules.policy, entries)|
            <==> !rules.grammar.isJson(tool) || |entries| <= Counting.MAX_FINDINGS
  {
    Counting.EntriesAreConserved(rules.policy, Counting.FindingEntries(rules.grammar, tool, raw));
  }
}
