/** The dialog's git requests: who joins one, who starts another, and that what
    was asked with line ranges is answered with them. */
module DialogGit {
  import opened Dialog

  // The event asks for the recent changes, with line ranges or without.
  predicate Asks(e: Event) {
    (e.Run? && e.scoped) || e.SinceBaselineToggled?
  }

  predicate AsksLines(e: Event) {
    (e.Run? && e.scoped && e.lines) || e.SinceBaselineToggled?
  }

  // The result of the request that is out arrives.
  predicate Answers(s: State, e: Event) {
    e.GitResult? && e.request == s.git.request
  }

  // Whoever asks waits, last of all. The request that is out is joined, unless
  // it has no line ranges and they are asked for; otherwise a new one goes out,
  // and what the old one brings is dropped.
  predicate Asked(t: Git, s: Git, lines: bool, waiter: Waiter) {
    var joins := s.inFlight && (s.inFlightLines || !lines);
    && t.inFlight && t.waiters == s.waiters + [waiter]
    && t.request == (if joins then s.request else s.request + 1)
    && t.outstanding == (if joins then s.outstanding else s.outstanding + {s.request + 1})
    && t.inFlightLines == (if joins then s.inFlightLines else lines)
  }

  lemma AskTells(c: Config, s: State, e: Event)
    requires Inv(c, s) && Enabled(c, s, e) && c.isGit && Asks(e)
    ensures Asked(Step(c, s, e).git, s.git, AsksLines(e), if e.Run? then StartRun(s.generation + 1) else Render)
  {
    if e.Run? {
      RequestTells(c, ResetForRun(s), e.lines, StartRun(s.generation + 1), e.unstartable);
    } else {
      RequestTells(c, s, true, Render, {});
    }
  }

  lemma RequestTells(c: Config, s: State, lines: bool, waiter: Waiter, unstartable: set<nat>)
    requires Shaped(c, s) && c.isGit
    ensures Asked(RequestRecentChangeSets(c, s, lines, waiter, unstartable).git, s.git, lines, waiter)
  {
  }

  // Starting checks leaves the requests alone.
  lemma OthersTell(c: Config, s: State, e: Event)
    requires Inv(c, s) && Enabled(c, s, e) && c.isGit && !Asks(e) && !Answers(s, e)
    ensures var t := Step(c, s, e).git;
            t == if e.GitResult? then s.git.(outstanding := s.git.outstanding - {e.request}) else s.git
  {
  }

  // A request with line ranges is the one that is out until its own result
  // comes: no later one without them takes its place.
  lemma {:induction false} LinesAreAnswered(c: Config, selected: seq<bool>, trace: seq<State>, events: seq<Event>,
      m: nat, k: nat)
    requires RunOf(c, selected, trace, events) && m < k < |trace| && c.isGit && AsksLines(events[m])
    requires forall x | m < x < k :: !Answers(trace[x], events[x])
    ensures trace[k].git.inFlight && trace[k].git.inFlightLines && trace[k].git.request == trace[m + 1].git.request
    ensures |trace[m].git.waiters| < |trace[k].git.waiters|
    ensures trace[k].git.waiters[|trace[m].git.waiters|]
         == if events[m].Run? then StartRun(trace[m].generation + 1) else Render
  {
    Reachable(c, selected, trace, events, k - 1);
    if k == m + 1 {
      AskTells(c, trace[m], events[m]);
    } else {
      LinesAreAnswered(c, selected, trace, events, m, k - 1);
      StillOut(c, trace[k - 1], events[k - 1], |trace[m].git.waiters|);
    }
  }

  lemma StillOut(c: Config, s: State, e: Event, j: nat)
    requires Inv(c, s) && Enabled(c, s, e) && c.isGit && !Answers(s, e)
    requires s.git.inFlight && s.git.inFlightLines && j < |s.git.waiters|
    ensures var t := Step(c, s, e).git;
            t.inFlight && t.inFlightLines && t.request == s.git.request
            && j < |t.waiters| && t.waiters[j] == s.git.waiters[j]
  {
    if Asks(e) {
      AskTells(c, s, e);
    } else {
      OthersTell(c, s, e);
    }
  }

  // Outside a git project nobody waits: a run that asks starts at once.
  lemma NoGitTells(c: Config, s: State, e: Event)
    requires Inv(c, s) && Enabled(c, s, e) && !c.isGit && Asks(e)
    ensures Step(c, s, e).git.waiters == [] && Step(c, s, e).git.outstanding == s.git.outstanding
    ensures e.Run? ==> Step(c, s, e).starts == 1
  {
    if e.Run? {
      var t := ResetForRun(s);
      var u := t.(git := t.git.(waiters := []));
      ResetIsNotStarted(c, s);
      NewStart([], t.generation);
      WakeOne(c, u, [] + [StartRun(t.generation)], e.unstartable);
      StartKeepsStarts(c, u, e.unstartable);
    } else {
      WakeNone(c, s.(git := s.git.(waiters := [])), s.git.waiters + [Render], {});
    }
  }

  lemma StartKeepsStarts(c: Config, s: State, unstartable: set<nat>)
    requires Shaped(c, s)
    ensures StartSelectedChecks(c, s, unstartable).starts == s.starts + 1
  {
    var total := CountSelected(s.selected, |s.selected|);
    LoopKeepsStarts(c, QueueChecks(s, total), unstartable);
  }

  lemma {:induction false} LoopKeepsStarts(c: Config, s: State, unstartable: set<nat>)
    requires Shaped(c, s)
    ensures RunNextCheck(c, s, unstartable).starts == s.starts
    decreases |c.checks| - s.currentCheck
  {
    if !s.cancelled && s.currentCheck < |c.checks| {
      var k := NextSelected(s.selected, s.currentCheck + 1);
      if FailsToStart(c, k, unstartable) {
        LoopKeepsStarts(c, AfterFailedStart(s, k), unstartable);
      }
    }
  }
}
