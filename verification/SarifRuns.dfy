/** The results of a SARIF document under one ceiling: a run for each tool,
    then one for what was carried over, which is shed first. */
module SarifRuns {
  import opened Options

  const MAX_RESULTS: nat := 10_000

  // A tool's full findings, when it has an entry, and its samples.
  datatype Tool<T> = Tool(findings: Option<seq<T>>, samples: seq<T>)

  datatype Result<T> = Result(finding: T, carried: bool)

  // ------------------------------------------------------------ specification

  function Source<T>(tool: Tool<T>): seq<T> {
    if tool.findings.Some? then tool.findings.value else tool.samples
  }

  // Everything there is to say, current results first.
  function Current<T>(tools: seq<Tool<T>>): seq<T> {
    if tools == [] then [] else Current(tools[..|tools| - 1]) + Source(tools[|tools| - 1])
  }

  function Tagged<T>(findings: seq<T>, carried: bool): (rs: seq<Result<T>>)
    ensures |rs| == |findings|
    ensures forall k | 0 <= k < |rs| :: rs[k] == Result(findings[k], carried)
  {
    seq(|findings|, k requires 0 <= k < |findings| => Result(findings[k], carried))
  }

  function Everything<T>(tools: seq<Tool<T>>, carriedForward: seq<T>): seq<Result<T>> {
    Tagged(Current(tools), false) + Tagged(carriedForward, true)
  }

  function Flat<T>(runs: seq<seq<Result<T>>>): seq<Result<T>> {
    if runs == [] then [] else Flat(runs[..|runs| - 1]) + runs[|runs| - 1]
  }

  function Capped<T>(results: seq<T>): seq<T> {
    if |results| <= MAX_RESULTS then results else results[..MAX_RESULTS]
  }

  predicate IsPrefix<T(==)>(a: seq<T>, b: seq<T>) {
    a <= b
  }

  // A run holds the first of its findings, tagged.
  predicate IsRunOf<T(==)>(run: seq<Result<T>>, findings: seq<T>, carried: bool) {
    IsPrefix(run, Tagged(findings, carried))
  }

  ghost predicate RunsOf<T>(runs: seq<seq<Result<T>>>, tools: seq<Tool<T>>) {
    |runs| <= |tools| && forall k | 0 <= k < |runs| :: IsRunOf(runs[k], Source(tools[k]), false)
  }

  // How many findings the tools have, by what each tool itself holds: its
  // findings, or without an entry its samples.
  function Found<T>(tools: seq<Tool<T>>): nat {
    if tools == [] then 0
    else
      var last := tools[|tools| - 1];
      Found(tools[..|tools| - 1])
        + (match last.findings case Some(findings) => |findings| case None => |last.samples|)
  }

  lemma {:induction false} FoundIsCurrent<T>(tools: seq<Tool<T>>)
    ensures |Current(tools)| == Found(tools)
  {
    if tools != [] {
      FoundIsCurrent(tools[..|tools| - 1]);
    }
  }

  // The run of a tool with `before` findings in the runs ahead of it: as many
  // of the first of its own as 10,000 leave room for.
  predicate FirstThatFit<T(==)>(run: seq<Result<T>>, findings: seq<T>, before: nat) {
    && |run| == (if before + |findings| <= 10_000 then |findings| else if before <= 10_000 then 10_000 - before else 0)
    && forall j | 0 <= j < |run| :: j < |findings| && run[j] == Result(findings[j], false)
  }

  // Whatever its samples are, a tool with an entry has its findings written.
  ghost predicate WritesTool<T>(run: seq<Result<T>>, tools: seq<Tool<T>>, k: nat)
    requires k < |tools|
  {
    match tools[k].findings
    case Some(findings) => FirstThatFit(run, findings, Found(tools[..k]))
    case None => FirstThatFit(run, tools[k].samples, Found(tools[..k]))
  }

  ghost predicate WritesTools<T>(runs: seq<seq<Result<T>>>, tools: seq<Tool<T>>) {
    |runs| <= |tools| && forall k | 0 <= k < |runs| :: WritesTool(runs[k], tools, k)
  }

  lemma WritesToolsGrows<T>(runs: seq<seq<Result<T>>>, run: seq<Result<T>>, tools: seq<Tool<T>>)
    requires WritesTools(runs, tools) && |runs| < |tools| && WritesTool(run, tools, |runs|)
    ensures WritesTools(runs + [run], tools)
  {
  }

  lemma WrittenRunsAreRuns<T>(runs: seq<seq<Result<T>>>, tools: seq<Tool<T>>)
    requires WritesTools(runs, tools)
    ensures RunsOf(runs, tools)
  {
    forall k | 0 <= k < |runs| ensures IsRunOf(runs[k], Source(tools[k]), false) {
      assert WritesTool(runs[k], tools, k);
    }
  }

  // ------------------------------------------------------------------- loops

  // One run's results: what still fits under the ceiling.
  method EmitRun<T>(findings: seq<T>, carried: bool, emitted0: nat, dropped0: nat)
    returns (results: seq<Result<T>>, emitted: nat, dropped: nat)
    requires emitted0 <= MAX_RESULTS
    ensures IsRunOf(results, findings, carried)
    ensures emitted == emitted0 + |results| <= MAX_RESULTS
    ensures dropped == dropped0 + |findings| - |results|
    ensures |results| < |findings| ==> emitted == MAX_RESULTS
  {
    results, emitted, dropped := [], emitted0, dropped0;
    for i := 0 to |findings|
      invariant |results| <= i && forall k | 0 <= k < |results| :: results[k] == Result(findings[k], carried)
      invariant emitted == emitted0 + |results| <= MAX_RESULTS
      invariant dropped == dropped0 + i - |results|
      invariant |results| < i ==> emitted == MAX_RESULTS
    {
      if emitted >= MAX_RESULTS {
        dropped := dropped + 1;
        continue;
      }
      results := results + [Result(findings[i], carried)];
      emitted := emitted + 1;
    }
  }

  lemma TaggedConcat<T>(a: seq<T>, b: seq<T>, carried: bool)
    ensures Tagged(a + b, carried) == Tagged(a, carried) + Tagged(b, carried)
  {
  }

  // Cutting `all` when `more` arrives behind it.
  lemma CappedGrows<T>(all: seq<T>, more: seq<T>, taken: seq<T>)
    requires IsPrefix(taken, more) && |Capped(all)| + |taken| <= MAX_RESULTS
    requires |taken| < |more| ==> |Capped(all)| + |taken| == MAX_RESULTS
    ensures Capped(all + more) == Capped(all) + taken
  {
    if |all| > MAX_RESULTS {
      assert taken == [];
      assert (all + more)[..MAX_RESULTS] == all[..MAX_RESULTS];
    } else if |taken| == |more| {
      assert taken == more;
    } else {
      assert (all + more)[..MAX_RESULTS] == all + more[..|taken|];
    }
  }

  // One more run: the document stays the first results of what came so far.
  lemma RunJoins<T>(runs: seq<seq<Result<T>>>, run: seq<Result<T>>, all: seq<Result<T>>, more: seq<Result<T>>)
    requires Flat(runs) == Capped(all)
    requires IsPrefix(run, more) && |Flat(runs)| + |run| <= MAX_RESULTS
    requires |run| < |more| ==> |Flat(runs)| + |run| == MAX_RESULTS
    ensures Flat(runs + [run]) == Capped(all + more) && |Flat(runs + [run])| == |Flat(runs)| + |run|
  {
    assert (runs + [run])[..|runs|] == runs;
    CappedGrows(all, more, run);
  }

  lemma CurrentGrows<T>(tools: seq<Tool<T>>, i: nat)
    requires i < |tools|
    ensures Tagged(Current(tools[..i + 1]), false)
            == Tagged(Current(tools[..i]), false) + Tagged(Source(tools[i]), false)
  {
    assert tools[..i + 1][..i] == tools[..i];
    TaggedConcat(Current(tools[..i]), Source(tools[i]), false);
  }

  function AtMostTheCap(n: nat): nat {
    if n <= MAX_RESULTS then n else MAX_RESULTS
  }

  // What EmitRun gives for tool i, behind the tools before it.
  lemma ToolIsWritten<T>(tools: seq<Tool<T>>, i: nat, src: seq<T>, run: seq<Result<T>>)
    requires i < |tools|
    requires src == if tools[i].findings.Some? then tools[i].findings.value else tools[i].samples
    requires IsRunOf(run, src, false)
    requires AtMostTheCap(Found(tools[..i])) + |run| <= MAX_RESULTS
    requires |run| < |src| ==> AtMostTheCap(Found(tools[..i])) + |run| == MAX_RESULTS
    ensures WritesTool(run, tools, i)
    ensures AtMostTheCap(Found(tools[..i + 1])) == AtMostTheCap(Found(tools[..i])) + |run|
  {
    assert tools[..i + 1][..i] == tools[..i];
  }

  // One run per tool, in order.
  method EmitCurrent<T>(tools: seq<Tool<T>>)
    returns (runs: seq<seq<Result<T>>>, emitted: nat, dropped: nat)
    ensures |runs| == |tools|
    ensures Flat(runs) == Capped(Tagged(Current(tools), false))
    ensures emitted == |Flat(runs)| && emitted + dropped == |Current(tools)|
    ensures RunsOf(runs[..|tools|], tools) && WritesTools(runs[..|tools|], tools)
  {
    runs, emitted, dropped := [], 0, 0;
    ghost var all: seq<Result<T>> := [];
    for i := 0 to |tools|
      invariant |runs| == i
      invariant all == Tagged(Current(tools[..i]), false)
      invariant Flat(runs) == Capped(all)
      invariant emitted == |Flat(runs)| <= MAX_RESULTS
      invariant emitted + dropped == |all|
      invariant WritesTools(runs, tools)
      invariant emitted == AtMostTheCap(Found(tools[..i]))
    {
      var src := if tools[i].findings.Some? then tools[i].findings.value else tools[i].samples;
      ghost var more := Tagged(src, false);
      var results;
      results, emitted, dropped := EmitRun(src, false, emitted, dropped);
      CurrentGrows(tools, i);
      RunJoins(runs, results, all, more);
      ToolIsWritten(tools, i, src, results);
      WritesToolsGrows(runs, results, tools);
      runs, all := runs + [results], all + more;
    }
    assert all == Tagged(Current(tools), false) by { assert tools[..|tools|] == tools; }
    assert runs[..|tools|] == runs;
    WrittenRunsAreRuns(runs, tools);
  }

  // The whole document; the extra run only when something is carried. Read in
  // order, the runs are the first results of everything.
  method WriteResults<T>(tools: seq<Tool<T>>, carriedForward: seq<T>)
    returns (runs: seq<seq<Result<T>>>, emitted: nat, dropped: nat, docTruncated: bool)
    ensures |runs| == |tools| + if carriedForward == [] then 0 else 1
    ensures Flat(runs) == Capped(Everything(tools, carriedForward))
    ensures RunsOf(runs[..|tools|], tools) && WritesTools(runs[..|tools|], tools)
    ensures carriedForward != [] ==> IsRunOf(runs[|tools|], carriedForward, true)
    ensures emitted == |Flat(runs)|
    ensures emitted + dropped == |Everything(tools, carriedForward)|
    ensures docTruncated <==> |Everything(tools, carriedForward)| > MAX_RESULTS
  {
    runs, emitted, dropped := EmitCurrent(tools);
    ghost var all, extra := Tagged(Current(tools), false), Tagged(carriedForward, true);
    if carriedForward != [] {
      var results;
      results, emitted, dropped := EmitRun(carriedForward, true, emitted, dropped);
      RunJoins(runs, results, all, extra);
      runs := runs + [results];
    } else {
      assert all + extra == all;
    }
    docTruncated := dropped > 0;
  }

  // ----------------------------------------------------------------- results

  // The carried run sheds first: a carried result is in the document only
  // when every current one is, and some is exactly when there was room left.
  lemma CarriedShedsFirst<T>(tools: seq<Tool<T>>, carriedForward: seq<T>)
    ensures var rs := Capped(Everything(tools, carriedForward)); var current := Tagged(Current(tools), false);
            && ((exists r :: r in rs && r.carried) <==> carriedForward != [] && |current| < MAX_RESULTS)
            && ((exists r :: r in rs && r.carried) ==> current <= rs)
            && (current <= rs <==> |current| <= MAX_RESULTS)
  {
    var all := Everything(tools, carriedForward);
    var rs, current := Capped(all), Tagged(Current(tools), false);
    assert forall k | 0 <= k < |current| :: all[k] == current[k];
    assert forall k | |current| <= k < |all| :: all[k].carried;
    assert forall k | 0 <= k < |rs| :: rs[k] == all[k];
    if carriedForward != [] && |current| < MAX_RESULTS {
      assert rs[|current|].carried && rs[|current|] in rs;
    }
    if |current| <= MAX_RESULTS {
      assert all[..|current|] == current && rs[..|current|] == current;
    }
  }

  // How often a finding was found, over all tools.
  function TimesFound<T(==)>(tools: seq<Tool<T>>, f: T): nat {
    if tools == [] then 0
    else
      var last := tools[|tools| - 1];
      TimesFound(tools[..|tools| - 1], f)
        + (match last.findings case Some(findings) => multiset(findings)[f] case None => multiset(last.samples)[f])
  }

  lemma {:induction false} CurrentTimes<T>(tools: seq<Tool<T>>, f: T)
    ensures multiset(Current(tools))[f] == TimesFound(tools, f)
  {
    if tools != [] {
      CurrentTimes(tools[..|tools| - 1], f);
    }
  }

  lemma {:induction false} TaggedTimes<T>(findings: seq<T>, carried: bool, f: T)
    ensures multiset(Tagged(findings, carried))[Result(f, carried)] == multiset(findings)[f]
    ensures multiset(Tagged(findings, !carried))[Result(f, carried)] == 0
  {
    if findings != [] {
      var last := |findings| - 1;
      TaggedTimes(findings[..last], carried, f);
      assert findings == findings[..last] + [findings[last]];
      TaggedConcat(findings[..last], [findings[last]], carried);
      TaggedConcat(findings[..last], [findings[last]], !carried);
      assert Tagged([findings[last]], carried) == [Result(findings[last], carried)];
      assert Tagged([findings[last]], !carried) == [Result(findings[last], !carried)];
    }
  }

  // When all findings and all carried ones fit together, a document that reads
  // as the first of everything has every finding of every tool, once for each
  // time it was found, and every carried one.
  lemma EveryFindingIsWritten<T>(runs: seq<seq<Result<T>>>, tools: seq<Tool<T>>, carriedForward: seq<T>, f: T)
    requires Flat(runs) == Capped(Everything(tools, carriedForward))
    requires Found(tools) + |carriedForward| <= 10_000
    ensures multiset(Flat(runs))[Result(f, false)] == TimesFound(tools, f)
    ensures multiset(Flat(runs))[Result(f, true)] == multiset(carriedForward)[f]
  {
    FoundIsCurrent(tools);
    CurrentTimes(tools, f);
    TaggedTimes(Current(tools), false, f);
    TaggedTimes(carriedForward, true, f);
    TaggedTimes(Current(tools), true, f);
    TaggedTimes(carriedForward, false, f);
  }

  // No result changes hands: every one is a current or a carried finding.
  lemma ResultsAreFindings<T>(tools: seq<Tool<T>>, carriedForward: seq<T>, r: Result<T>)
    requires r in Capped(Everything(tools, carriedForward))
    ensures if r.carried then r.finding in carriedForward else r.finding in Current(tools)
  {
    var all := Everything(tools, carriedForward);
    var k :| 0 <= k < |Capped(all)| && Capped(all)[k] == r;
    assert all[k] == r;
  }

  // With every tool's set and the carried one under the ceiling together,
  // nothing is lost: the document is every current then every carried finding.
  lemma UnderTheCeilingIsWhole<T>(tools: seq<Tool<T>>, carriedForward: seq<T>)
    ensures Capped(Everything(tools, carriedForward)) == Everything(tools, carriedForward)
            <==> |Current(tools)| + |carriedForward| <= MAX_RESULTS
  {
  }
}
