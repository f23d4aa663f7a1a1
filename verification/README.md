# The project-audit subsystem, modelled and proved

This Dafny project models the audit subsystem of the terminal: the part that runs analysis tools over a project,
counts and filters what they print, remembers findings from run to run, repairs what it safely can, and shows the run
in a dialog. `dafny verify dfyconfig.toml` checks all of it.

Each component is a module of its own, in the form its source has: classes whose methods update fields, methods with
loops, arrays where the source swaps arrays. Every such method is proved equal to a specification function or step
relation, and the theorems are about those, over all inputs, all runs or all event orders. What each operation answers
is told once more without its specification: by characters, lines, rows and events.

- `Lexer`, `LexerTheorems`, `LexerLines` – the comment-and-string scanner that says whether a line has code; what
  opens, closes and counts in each syntax.
- `Lanes` – one detached worker and one waiter with a deadline; every critical section is a step.
- `Multiplexer`, `SweepStatus`, `SweepResults` – tool processes, output cap, per-tool cap, kill grace and aggregate
  cap, in any order; which status each event gives; the results with the parser of `Counting`.
- `Dialog`, `DialogReads`, `DialogRows`, `DialogGit`, `DialogTheorems`, `DialogSlots` – Run, Cancel, timeout, process,
  lane and git results and the toggles, with generation counters; when a toggle is read; what each row says; who waits
  for which git request; what every run keeps; the dialog's own slots.
- `RunCache`, `CacheEffects` – artefacts, manifest, migration, cap and reaper; what a run leaves, name by name.
- `Ledger`, `LedgerResults` – the append-only false-positive ledger that replays to a map; what each request comes to.
- `FireDays`, `RuleQuality`, `RuleReport` – fire buckets and the rule report; its numbers, and what a save writes.
- `Tightening`, `Suggestions` – the longest-common-substring suggestion, and when one is made.
- `Autofix`, `AutofixFile`, `FileLines` – batch repairs planned from one snapshot of a file, on its text and bytes.
- `Delta`, `Counting`, `CountingRows`, `SarifRuns`, `Messages` – findings deltas over chains of runs, counting entry by
  entry and line by line, the document ceiling, the message cap.
- `Glob`, `LineFilter`, `FilterLines`, `NearMiss`, `NormalForms`, `ApplyEdits`, `EditOutcomes`, `SarifUri` – text
  transformations, and what they come to in lines, words and pieces.
- `Chars`, `Options`, `Subsequences`, `Suppressions`, `Text`, `Utf8` – what the others share.

Outside events (process signals, timers, threads, git results, what a write or a removal does) are nondeterministic
events or parameters. JSON rows are datatypes, a directory is a set of names, a commit succeeds or fails as a whole.
Regular expressions, the fingerprint hash, `toolArgv` and the tools themselves are parameters or uninterpreted.

Some intended claims are not true of the code on every input. The code is kept as it is, and the exact condition is
proved instead:

- a click on All On or All Off during a run changes which checks follow, so that the report and the counts of a
  finished run need not be those of its selection (`FinishedIsTheSelection`, `AllOffCutsTheRun`);
- the cap on recorded findings sheds findings on files nobody scanned again, and a run that cannot read the prior record
  sheds them without the flag (`StaysBelowTheCap`, `FullRecordSheds`, `ConcreteShed`, `UnreadableShedsSilently`);
- a repair rewrites every other line that is not UTF-8, and drops a byte-order mark (`OtherLineKeepsItsBytes`,
  `BatchIsPatchedFile`, `StrayByteIsRewritten`), so that a batch differs from one on the text when a line with a mark
  comes first while a later repair can tell (`BatchReadsText`, `MarkedLineIsTaken`);
- removing every line of a file that ends in a newline leaves one blank line (`BatchText`, `BlankStaysWhenAllGo`,
  `OnlyLineLeavesABlank`);
- filtering a filtered body again takes a carriage return off a line that still ends in one (`FilterAgain`,
  `DoubleCrIsEaten`), and CR LF differs from LF behind a carriage return (`CrLfIsLf`);
- a save and reload takes a rule's lost rows off its thirty-day suppressions, and its rate stays under a condition on
  the fires and suppressions before and the number of these rows (`SaveLoadKeepsReport`, `SuppressionsSurvive`);
- a path, a text or a message that starts with U+FEFF loses it on the way through bytes (`LocationReadsBack`,
  `EscapedReadsBack`, `CapShape`, `ReadsBack`);
- a newline swallowed by a string escape shifts every later line of the scanner's count (`ScanIsPhysical`);
- a row appended behind a torn ledger line is lost, unless it is restored by another (`TornLineLosesTheRow`,
  `TornRowIsLostToo`, `TornLineLosesTheFirst`), so that there a batch need not be its requests one by one
  (`BatchIsOneByOne`);
- a file that cannot be removed when it falls out of the manifest stays for good, and so does a recorded artefact that
  an unrecorded run writes again after it fell out (`NamedOrDeletedAfterRun`, `NamedOrDeletedAlways`,
  `StuckFileIsLeft`);
- a same-second twin's artefact goes when a write cannot be made private (`NamedExistAfterRun`, `TwinSidecarIsLost`);
- day order of the fire buckets needs a clock that does not go back (`FireKeepsOrder`, `OrderIsKept`);
- the count after filtering goes negative past 10,000 suppressed entries (`AfterFilterIsKept`, `CountGoesNegative`);
- the message cap of 256 bytes is missed by up to two bytes (`CapIsMet`, `CapIsNearlyMet`, `CapIsMissed`);
- an octal digit behind a NUL in a glob is taken into the escape, and a newline in a path breaks the match
  (`CompiledExactly`, `PathsExactly`);
- nameless findings on both sides make the SARIF and the recorded set differ (`SarifIsMerged`);
- an edit is undone exactly under a condition on the new text (`EditUndoes`, `RangeEditUndoes`).

One place where code and comment disagree: the comment over `capMessage` speaks of dropping a partial sequence, the
code drops continuation bytes of a complete one too and keeps its lead byte. The model follows the code.

## Model

| member | source | states |
|---|---|---|
| Lexer.LineHasCode | src/audithygiene.cpp:231-400 | the one-pass scan of seven states returns exactly the verdict of a two-pass reading: classify every character, then look for a non-structural code character on the line, lines counted without swallowed newlines; a line below 1 is code |
| Lexer.IsRawStringPrefix | src/audithygiene.cpp:216-229 | walking back over word characters finds exactly the maximal run ending at the R, and says whether it is one of the raw prefixes |
| Lexer.ScanRawDelim | src/audithygiene.cpp:348-357 | the delimiter scan succeeds exactly when at most 16 delimiter characters precede a '(', and lands on it |
| Lexer.StepCStyle | src/audithygiene.cpp:338-367 | from code, one step of the C-style scanner enters the state, closing text and position of the token that starts there |
| Lexer.StepHash | src/audithygiene.cpp:312-321 | the same for `#` comments and Python triple quotes |
| Lexer.StepLua | src/audithygiene.cpp:322-337 | the same for Lua comments and long brackets |
| Lexer.StepHidden | src/audithygiene.cpp:368-397 | inside a comment, string or raw string, what is skipped is hidden, and the class of every later character is unchanged by the step |
| LexerTheorems.ScanIsPhysical | src/audithygiene.cpp:304-374 | the verdict is about physical lines, for every line number, if and only if no code follows a newline that a string escape swallowed |
| LexerTheorems.ScannerLags | src/audithygiene.cpp:304-374 | the scanner's line is at most the physical one, and behind it exactly after a swallowed newline |
| LexerTheorems.SwallowedNewlineShiftsLines | src/audithygiene.cpp:374 | a concrete two-line source on which the verdict for line 2 is wrong |
| LexerTheorems.LaterLinesDoNotMatter | src/audithygiene.cpp:269-308 | once a line is closed, any two continuations of the text give it the same verdict |
| LexerTheorems.RawStringIsOpaque | src/audithygiene.cpp:340-383 | a raw string read in code hides every character up to the first `)delim"` (section 5.13.5 of ISO/IEC 14882:2020), quotes, escapes and newlines included |
| LexerLines.PythonPath | src/audithygiene.cpp:253-254 | a path that ends in `.py` or `.pyw` is read with `#` comments and triple quotes |
| LexerLines.ShellPath | src/audithygiene.cpp:255-262 | a path with one of the fifteen other endings is read with `#` comments |
| LexerLines.LuaPath | src/audithygiene.cpp:263-264 | a path that ends in `.lua` is read as Lua |
| LexerLines.OtherPath | src/audithygiene.cpp:250-266 | a path with none of these endings is read as C |
| LexerLines.OtherGoesOn | src/audithygiene.cpp:310-366 | behind a character read in code that opens nothing code goes on; what opens something is named for each syntax |
| LexerLines.LineComment | src/audithygiene.cpp:312-338 | `//`, `#` or `--` read in code hides everything up to and with the newline, and the next line begins in code |
| LexerLines.Block | src/audithygiene.cpp:315-396 | `/*`, `--[[`, `[[` or a triple quote read in code hides everything up to and with the first closing text behind it, and code goes on there |
| LexerLines.QuotedString | src/audithygiene.cpp:321-376 | any other quote read in code hides its text, escapes included, up to and with the closing quote, and code goes on there |
| LexerLines.RawString | src/audithygiene.cpp:216-383 | behind one of the five prefixes that is a word of its own, and with at most 16 delimiter characters, a quote hides everything up to and with the first closing text |
| LexerLines.RawQuoteIsRaw | src/audithygiene.cpp:216-357 | every quote the scanner takes for a raw one is one of those |
| LexerLines.LineVerdict | src/audithygiene.cpp:269-308 | the verdict for a line that begins and ends in code: some character of it is read in code and is no blank, no separator, bracket, quote or backslash, and introduces no comment |
| LexerLines.CommentLine | src/audithygiene.cpp:269-338 | a line of blanks and a line comment has no code |
| LexerLines.BlockLine | src/audithygiene.cpp:269-396 | a line of blanks, a block that closes on it and blanks has no code |
| LexerLines.OneCharacterIsEnough | src/audithygiene.cpp:274-300 | one letter, digit or operator read in code makes its line code |
| Lanes.OutcomesAreAPrefix | src/auditrunner.cpp:1673-1718 | under every interleaving, outcomes have the input's length and ids, an ok prefix with each lane's own output, then a timed-out suffix with the budget; all ok when the wait saw `finished` |
| Lanes.AtMostOneLaneOutlivesTheCall | src/auditrunner.cpp:1694-1717 | at every later moment the lane functions entered exceed the reported ones by at most one |
| Lanes.NoBudgetNoLane | src/auditrunner.cpp:1676-1682 | without budget or lanes, no lane function is ever entered and all outcomes are timed out |
| Lanes.ReturnedIsFinal | src/auditrunner.cpp:1684-1717 | what was returned is never changed by the abandoned worker |
| Lanes.WorkerEnds | src/auditrunner.cpp:1694-1710 | every worker step decreases a measure, abandoned or not |
| Lanes.WorkerCanStep | src/auditrunner.cpp:1694-1710 | a worker that is not gone always has a step |
| Lanes.Shared.constructor | src/auditrunner.cpp:1676-1693 | the call starts in the initial state |
| Lanes.Shared.Check | src/auditrunner.cpp:1695-1699 | the look at `abandoned` under the lock is a worker step |
| Lanes.Shared.Append | src/auditrunner.cpp:1702-1705 | appending an outcome under the lock is a worker step |
| Lanes.Shared.Finish | src/auditrunner.cpp:1707-1709 | setting `finished` under the lock is a worker step |
| Lanes.Shared.Collect | src/auditrunner.cpp:1712-1717 | the end of the wait is the waiter step: abandon unless finished, copy what is done |
| Lanes.Overlaid | src/auditrunner.cpp:1716 | the copying loop puts every finished outcome in its slot and leaves the rest |
| Multiplexer.EveryToolEndsOnce | src/auditrunner.cpp:2395-2446 | over any event order, `pending` plus recorded tools is the spawned tools, and after the loop every spawned tool has a result |
| Multiplexer.FirstResultStands | src/auditrunner.cpp:2395-2398 | a recorded result is never changed by any later event |
| Multiplexer.CutToolsReportNothing | src/auditrunner.cpp:2480-2545 | every timed-out or too-large result has zero counts, no findings and no samples, whatever the tool had printed |
| Multiplexer.LoopCanEnd | src/auditrunner.cpp:2557-2577 | while looping the aggregate cap can fire, after it nothing is owed and the loop can leave; it can leave as soon as nothing is owed |
| Multiplexer.BuffersStayBounded | src/auditrunner.cpp:2462-2478 | what is buffered for a tool never passes 64 MiB, over any event order |
| Multiplexer.LanesJoinTheTools | src/auditrunner.cpp:2600-2606 | the lanes' results are added to the tools' and change none of them |
| Multiplexer.LanesAreCounted | src/auditrunner.cpp:2593-2606 | each new lane result lowers `pending` by one, even below zero |
| Multiplexer.CutLanesReportNothing | src/auditrunner.cpp:2600-2606 | a lane that timed out reports nothing |
| Multiplexer.Sweep.Finish | src/auditrunner.cpp:2395-2446 | recording a result is the specified step: first result wins, the parser's abort marker turns ok into crashed |
| Multiplexer.Sweep.Drain | src/auditrunner.cpp:2462-2478 | draining either grows both buffers or, past the cap, drops them and marks the tool |
| Multiplexer.Sweep.OnFinished | src/auditrunner.cpp:2480-2508 | the finished handler is the specified step |
| Multiplexer.Sweep.OnError | src/auditrunner.cpp:2509-2524 | the error handler is the specified step: standard error only |
| Multiplexer.Sweep.OnToolCap | src/auditrunner.cpp:2529-2536 | the per-tool cap marks a tool that is still running |
| Multiplexer.Sweep.OnAggregateCap | src/auditrunner.cpp:2558-2572 | the loop over processes ends exactly the running tools without a result, in any order, and quits |
| SweepStatus.StatusTells | src/auditrunner.cpp:2395-2577 | over any event order a recorded status is told by the event that recorded it, whether the tool's cap signalled it before, and what it had printed by then: too large over 64 MiB, else timed out, else crashed or ok by its exit and its text; what is parsed is all it printed, both channels when both have text, standard error alone after an error, and nothing of a tool that was cut |
| SweepStatus.LaneTells | src/auditrunner.cpp:2600-2606 | the first lane of its name is recorded with its own status and output, crashed if its output says that it gave up |
| SweepResults.Parse | src/auditrunner.cpp:866-1110 | parsing a tool's output by the run's rules gives the sweep's counts, findings, samples and abort marker |
| SweepResults.CutToolsReportNothing | src/auditrunner.cpp:2480-2545 | with that parser, for any rules: a tool that was cut off reports nothing, over any event order |
| SweepResults.CutLanesReportNothing | src/auditrunner.cpp:2600-2606 | with that parser, no tool and no lane that was cut off reports anything |
| SweepResults.CountsAfterFilter | src/auditrunner.cpp:2395-2446 | the recorded count after the filter is the number of entries kept if and only if the clamp of the raw count was not passed |
| DialogTheorems.ReportIsWhatWasOn | src/auditdialog.cpp:2781-2952 | over any event order, bulk clicks in any phase included, rows ascend in catalogue order and number `m_checksRun`; a check the index has passed has a row if and only if its toggle was on at the step that passed it; a cancelled run adds its sentinel, last |
| DialogTheorems.FinishedIsTheSelection | src/auditdialog.cpp:2671-2692 | the report of a finished run is the selection its checks started with, and the two counts agree, if and only if every toggle the run read was then as at the start |
| DialogTheorems.UndisturbedIsTheSelection | src/auditdialog.cpp:2055-2062 | so it is when no step of the run changed the toggle of a check beyond the current one |
| DialogTheorems.OnlyBulkClicksChange | src/auditdialog.cpp:2055-2062 | only All On and All Off can do that while checks run |
| DialogTheorems.AllOffCutsTheRun | src/auditdialog.cpp:2059-2062 | a concrete run: two checks on, All Off during the first, a finished report of one row that tells a total of two |
| DialogTheorems.UndoneClickIsHarmless | src/auditdialog.cpp:2055-2062 | All Off and then All On leave the dialog as it was, so that a bulk click alone is no failure |
| DialogRows.RowTells | src/auditdialog.cpp:2716-2952 | over any event order every row is told by the event that made it: findings of a lane or of an exit that neither crashed nor overflowed nor only failed, with the event's text; a crash, an overflow, a failed tool, a time-out, a cancel; or a failed start of a later check that could not start |
| DialogRows.EndIsReported | src/auditdialog.cpp:2881-2950 | every event that ends the current check adds its row next |
| DialogGit.AskTells | src/auditdialog.cpp:2583-2622 | whoever asks waits last; the request that is out is joined unless line ranges are asked for and it has none, else a new one goes out |
| DialogGit.LinesAreAnswered | src/auditdialog.cpp:2583-2622 | over any event order a request with line ranges stays the one that is out until its own result, and whoever asked is still waiting |
| DialogGit.NoGitTells | src/auditdialog.cpp:2583-2622 | outside a git project nobody waits, and a run that asks starts at once |
| DialogReads.SeenAsRead | src/auditdialog.cpp:2787-2791 | what a run remembers of a toggle is what the toggle was at the step that passed it |
| DialogReads.StepReads | src/auditdialog.cpp:2583-2952 | every event only adds to what was read, and what it adds are the toggles as they are then |
| DialogTheorems.RowsAreOfThisRun | src/auditdialog.cpp:2781-2952 | every row was produced by work of the current run on the row's own check |
| DialogTheorems.ChecksStartOnce | src/auditdialog.cpp:2583-2670 | a run's checks start at most once, however git requests are joined, replaced or late |
| DialogTheorems.CancelIsFinal | src/auditdialog.cpp:2716-2752 | after Cancel no event but a new Run adds a row, moves the counter or starts checks |
| DialogTheorems.StaleResultsAreDropped | src/auditdialog.cpp:2583-2622 | a lane result or git continuation of an older generation changes nothing a run can see |
| DialogTheorems.NeverStuck | src/auditdialog.cpp:2781-2855 | a run that is checking has its process or lane out; a run that waits has its git request out |
| Dialog.StepKeepsInv | src/auditdialog.cpp:2052-2952 | the run machine's invariant is kept by every event, toggles and bulk clicks at any time included |
| DialogSlots.AuditDialog.constructor | src/auditdialog.cpp:170-204 | the dialog starts idle |
| DialogSlots.AuditDialog.NextToggled | src/auditdialog.cpp:2787-2791 | the index loop finds the first selected check at or after a position |
| DialogSlots.AuditDialog.RunNextCheck | src/auditdialog.cpp:2781-2855 | starting the next check, with starts that fail on the way, is the specified function |
| DialogSlots.AuditDialog.StartSelectedChecks | src/auditdialog.cpp:2671-2692 | counting the toggles and queueing the checks is the specified function |
| DialogSlots.AuditDialog.RequestRecentChangeSets | src/auditdialog.cpp:2583-2622 | joining, replacing or answering a git request is the specified function |
| DialogSlots.AuditDialog.RunAudit | src/auditdialog.cpp:2624-2669 | the Run slot is the specified function |
| DialogSlots.AuditDialog.CancelAudit | src/auditdialog.cpp:2716-2752 | the Cancel slot is the specified function |
| DialogSlots.AuditDialog.OnTimeout | src/auditdialog.cpp:190-202 | the timeout slot is the specified function |
| DialogSlots.AuditDialog.OnCheckFinished | src/auditdialog.cpp:2881-2950 | the process slot is the specified function |
| DialogSlots.AuditDialog.OnLaneResult | src/auditdialog.cpp:2814-2829 | a lane result is taken only in its own generation |
| DialogSlots.AuditDialog.OnGitResult | src/auditdialog.cpp:2613-2620 | a git result wakes the waiters only for the newest request |
| DialogSlots.AuditDialog.Arrive | src/auditdialog.cpp:2793-2854 | where the loop stopped, the check's lane or process starts, its failed start is reported, or the run ends |
| DialogSlots.AuditDialog.AllOn | src/auditdialog.cpp:2055-2058 | the loop turns on every available toggle and no other |
| DialogSlots.AuditDialog.AllOff | src/auditdialog.cpp:2059-2062 | the loop turns off every toggle |
| RunCache.NamedExistAfterRun | src/auditcache.cpp:132-394 | after a run, whatever failed in it, everything the manifest names exists, if and only if the run removed no same-second twin for lack of privacy |
| RunCache.NamedExistAlways | src/auditcache.cpp:132-394 | the same over any sequence of runs, both ways |
| RunCache.TwinSidecarIsLost | src/auditcache.cpp:214-223 | a concrete pair of runs in one second after which a named sidecar is gone |
| RunCache.ManifestIsTheLogsHead | src/auditcache.cpp:132-394 | after any runs, failed ones included, the manifest is the last recorded run and the distilled ten before it |
| RunCache.HistoryIsNewestFirst | src/auditcache.cpp:231-276 | the last run and the history read newest first if and only if the clock did not go back over the recorded runs the manifest still holds |
| RunCache.NamedOrDeletedAfterRun | src/auditcache.cpp:132-394 | one run, whatever fails in it, keeps that every recorded artefact is named or gone, if and only if no stuck file that is on disk and was recorded is named by a dropped entry and by no kept one, and an unrecorded run writes no recorded name that fell out |
| RunCache.NamedOrDeletedAlways | src/auditcache.cpp:132-394 | over any runs it holds at every moment if and only if no run breaks that condition |
| RunCache.NamedOrDeleted | src/auditcache.cpp:132-394 | over any runs in which no cached SARIF met a failed directory, commit or removal, whatever else failed, every artefact ever recorded is still named or gone |
| RunCache.StuckFileIsLeft | src/auditcache.cpp:357-387 | a concrete twelve runs, the last of which drops the first one's SARIF and cannot remove it |
| CacheEffects.ManifestTells | src/auditcache.cpp:132-321 | after any runs the manifest has the newest run that went through and up to ten before it, each with its second, commit and the artefacts it wrote, and only the newest with the rest |
| CacheEffects.FilesTell | src/auditcache.cpp:132-394 | after a run a file is there if and only if the run wrote it, or it was there and was neither taken back for lack of privacy nor named by dropped entries alone and removable |
| RunCache.Cap | src/auditcache.cpp:268-276 | the trimming loop keeps the newest ten and hands every dropped name to the reaper |
| RunCache.KeepSet | src/auditcache.cpp:346-355 | the keep set is exactly the names of the new manifest |
| RunCache.Reap | src/auditcache.cpp:357-390 | reaping deletes exactly the dropped names that are neither kept nor stuck |
| RunCache.AuditCache.WriteSidecar | src/auditcache.cpp:186-229 | the sidecar's name enters the entry only if the file is there and private |
| RunCache.AuditCache.RecordRun | src/auditcache.cpp:132-394 | recording a run changes index and files exactly as specified, per failure point |
| RunCache.AuditCache.FinishAudit | src/auditrunner.cpp:2724-2860 | artefacts are written first, the record only when the SARIF is in the cache |
| Ledger.LoadEntries | src/auditfpledger.cpp:63-100 | the reading loop with its position index is the replay of the file's lines |
| Ledger.PlanRecords | src/auditfpledger.cpp:114-161 | the planning loop gives the rows and results of deciding the requests in order, each against what the earlier ones left |
| Ledger.DecideOne | src/auditfpledger.cpp:121-147 | one request is decided through the index as it would be by search, and the index stays right |
| Ledger.LedgerFile.RecordEntries | src/auditfpledger.cpp:169-214 | a call leaves the file and the results specified for every failure: invalid request, no directory, refused or short write |
| Ledger.PlanIsReplay | src/auditfpledger.cpp:114-161 | replaying the old list with the planned rows gives exactly the planner's final list |
| Ledger.ReloadIsMemory | src/auditfpledger.cpp:63-214 | on a log that ends in a newline, reading back gives what the planner held |
| Ledger.LoadAfterAppend | src/auditfpledger.cpp:197-213 | what an append does to the entries read back, torn line or not |
| Ledger.TornLineLosesTheRow | src/auditfpledger.cpp:199 | for one request and any last line, reading back gives the planner's memory if and only if the log ended in a newline or blank, nothing was written, or the lines before the torn one already hold what goes down with it; they never do when the torn line was no row |
| Ledger.TornRowIsLostToo | src/auditfpledger.cpp:199 | a row torn of its newline is lost together with the next one |
| Ledger.TornLineLosesTheFirst | src/auditfpledger.cpp:169-214 | for any batch, the map read back is the planner's if and only if the log ended in a newline or blank, nothing was written, or the first row and a torn one are both restored, by a later row or by the rest of the file; behind a torn comment or piece only a later row does |
| Ledger.ShortWriteKeepsAPrefix | src/auditfpledger.cpp:199-213 | after a short write on a log that ends in a newline or a blank, exactly the rows written whole are read back, one that lacks only its newline among them |
| Ledger.ShortWriteBehindTorn | src/auditfpledger.cpp:199-213 | behind a torn line, a short write that wrote anything loses that line and the first row; the rest of the rows written whole is read back |
| Ledger.BatchIsOneByOne | src/auditfpledger.cpp:169-214 | a batch leaves the file and gives the results of the same requests issued one by one if and only if the log ends in a newline or a blank, or no request after the first that writes can tell its memory from the lines before the torn one |
| Ledger.PlansAgree | src/auditfpledger.cpp:114-161 | two memories give the same results for the same requests, and then the same rows, if and only if for every fingerprint they agree on it, no request names it, or the first that does gives both a new reason |
| Ledger.DryRunTellsTheResults | src/auditfpledger.cpp:176-180 | a dry run writes nothing and reports what the call would report |
| Ledger.RuleNeverChanges | src/auditfpledger.cpp:126-145 | a fingerprint keeps rule and place from its first recording on |
| Ledger.LedgerIsAMap | src/auditfpledger.cpp:114-161 | planning refines updates of a map from fingerprint to entry |
| Ledger.FileRefinesMap | src/auditfpledger.cpp:63-214 | so does the file, read back after recording |
| Ledger.ReplayIsDistinct | src/auditfpledger.cpp:63-100 | a fingerprint is held once, however often it was written |
| LedgerResults.RequestTells | src/auditfpledger.cpp:114-161 | every request of a batch is answered against what the ones before it left: recorded if its fingerprint is new, left as it is if held, its reason and time replaced and its rule kept if another reason is to replace it; and then it is held so and nothing else changed |
| LedgerResults.CallTells | src/auditfpledger.cpp:169-214 | a call gives its results unless a fingerprint is not 16 hexadecimal digits, at most a newline behind them, or it was to write and could not; it touches the file only when it was to write and had something to |
| LedgerResults.FileTells | src/auditfpledger.cpp:190-213 | a full write adds a row for each entry that is new or replaced, in order, behind a comment in a new file; behind a torn line the first is no row |
| FireDays.FireAddsOne | src/auditrulequality.cpp:22-35 | a recorded fire adds exactly one to every total that counts its rule and day, whatever the clock did |
| FireDays.FireKeepsOrder | src/auditrulequality.cpp:22-35 | day order survives a fire if and only if the clock is not behind the last bucket; then there is one bucket a rule a day |
| FireDays.TotalsAreFires | src/auditrulequality.cpp:22-67 | over any recordings every total is the number of fires recorded there |
| FireDays.OrderIsKept | src/auditrulequality.cpp:22-35 | over any recordings the buckets stay in day order if and only if the fires that name a rule come with a clock that goes on from the list; then there is one bucket a rule a day |
| FireDays.CountFile | src/auditrulequality.cpp:274-290 | the two counting loops give the file's number for every rule and day, per-fire records of the first format included |
| FireDays.Load | src/auditrulequality.cpp:266-294 | loading gives buckets in day order, one a rule a day, each with the file's number |
| FireDays.SaveLoadKeepsTotals | src/auditrulequality.cpp:191-294 | saving and loading keeps every total over the days in retention |
| RuleReport.FireTells | src/auditrulequality.cpp:59-67 | one more bucket adds its count to its rule's fires, to those of thirty days if its day is among them, and may be its last fire |
| RuleReport.SuppressionTells | src/auditrulequality.cpp:69-77 | one more suppression counts for its rule, for thirty days if it is no older, and may be its last |
| RuleReport.RateTells | src/auditrulequality.cpp:79-90 | the rate is none without fires, else whole suppressions per hundred fires, at most a hundred |
| RuleReport.ReportTells | src/auditrulequality.cpp:59-97 | a rule has a row exactly when a bucket or a suppression names it; rows fall by rate and then by fires |
| RuleReport.SavedTells | src/auditrulequality.cpp:191-230 | saved are, of the suppressions of ninety days, the newest 50,000, in order, with whole seconds |
| RuleReport.DaysTell | src/auditrulequality.cpp:206-214 | and the buckets of the last ninety days, in order |
| RuleReport.FileTells | src/auditrulequality.cpp:274-290 | a file's count for a rule's day is the sum of its positive entries that name the rule and one for each record of the first format |
| RuleQuality.RuleQualityTracker.RecordFire | src/auditrulequality.cpp:22-35 | the scan over today's tail is the specified search over it |
| RuleQuality.RuleQualityTracker.RecordSuppression | src/auditrulequality.cpp:37-52 | a suppression with a rule is appended and nothing else changes |
| RuleQuality.RuleQualityTracker.Report | src/auditrulequality.cpp:54-98 | one row for every rule that fired or was suppressed, with that rule's totals, last fire and last suppression, highest rate first and then most fires |
| RuleQuality.RuleQualityTracker.Save | src/auditrulequality.cpp:191-258 | a dirty tracker writes the days in retention and the newest suppressions in retention; a failed commit changes nothing |
| RuleQuality.RuleQualityTracker.Reload | src/auditrulequality.cpp:260-305 | memory becomes what the file says of every rule and day |
| RuleQuality.FireIsReportedOnce | src/auditrulequality.cpp:22-67 | a fire moves exactly its own rule's reported totals, by one |
| RuleQuality.SaveLoadKeepsReport | src/auditrulequality.cpp:54-305 | save, reload and report, against the report without the reload: thirty-day fires are the same; suppressions are fewer by the rule's rows lost from the window, totals by the rows lost for good; the rate is the same if and only if there were no fires, or the lost rows fit above the fires, or a hundred times their number fits in the remainder of the percentage; all fires survive if and only if none is out of retention |
| RuleQuality.SuppressionsSurvive | src/auditrulequality.cpp:191-305 | a rule's suppressions after a reload plus those lost are those before, in a window and for all time; a row is lost from a window exactly when more than 50,000 rows in retention stand from it on, or its second began before the window |
| RuleQuality.SameRate | src/auditrulequality.cpp:80-88 | taking suppressions off keeps the capped whole percentage if and only if there is room for them |
| RuleQuality.ClampedByCount | src/auditrulequality.cpp:199-203 | the clamp takes off exactly the rows from which on too many are in retention |
| RuleQuality.SortRows | src/auditrulequality.cpp:92-97 | the rows of all rules, each once, in report order |
| Tightening.LongestCommonSubstring | src/auditrulequality.cpp:120-144 | the two-row table returns a common substring, none is longer, and none as long occurs earlier in the first text |
| Tightening.FillRow | src/auditrulequality.cpp:129-139 | filling a row in place gives the common-ending lengths and the best so far |
| Tightening.CollectSamples | src/auditrulequality.cpp:162-175 | the backward loop takes the newest lines of the rule, up to the limit |
| Tightening.SuggestTightening | src/auditrulequality.cpp:162-189 | the suggestion is the trimmed end of a fold of longest common substrings over the samples, or nothing; one that is made is contained in every sample, long enough, trimmed and structural |
| Tightening.SuggestionFitsEverySample | src/auditrulequality.cpp:162-189 | a suggestion is contained in every sample, has the minimum length and a structural character |
| Suggestions.SuggestionTells | src/auditrulequality.cpp:175-188 | a suggestion is made if and only if no link of the fold fell short and what is left of the last one without outer white space is long enough and has white space, a bracket, a separator, a quote or an angle in it; it is that |
| Suggestions.SamplesTell | src/auditrulequality.cpp:165-174 | the samples are the lines of the rule's suppressions that have one, newest first, as many as asked for |
| Autofix.ApplyRepair | src/auditautofix.cpp:102-151 | a repair is applied exactly when its line is there, unchanged and, for a removal, the only such line; the new text is the specified one |
| Autofix.ApplyBatch | src/auditdialog.cpp:1829-1845 | the batch loop is the fold of single repairs |
| Autofix.BatchIsPatch | src/auditdialog.cpp:1829-1845 | repairs planned from one snapshot, highest line first, give the snapshot with each applied repair's own line replaced or removed where it stood; no line is repaired twice |
| Autofix.EditsArePlanned | src/auditautofix.cpp:102-151 | the edits of a batch follow from the snapshot and the plans alone: a line gets its first plan that is a replacement, or a removal while no line below it, and none above as it is left, reads the same |
| Autofix.BatchText | src/auditautofix.cpp:112-136 | the text a batch leaves is that outcome if and only if not (line one goes and one empty part is left); then it is one newline |
| Autofix.BlankStaysWhenAllGo | src/auditautofix.cpp:112-136 | for a file that ends in a newline that is exactly when its lines are all different and the first plan of each is a removal |
| Autofix.OnlyLineLeavesABlank | src/auditautofix.cpp:130-136 | the concrete case |
| Autofix.SecondPlanIsStale | src/auditautofix.cpp:119-128 | a second plan for an edited line is refused |
| Autofix.ReplacementIsApplied | src/auditautofix.cpp:102-151 | a replacement is applied unless an earlier plan had its line |
| Autofix.FitsTells | src/auditautofix.cpp:112-128 | a repair is made if and only if its line is there, reads as planned and, to be removed, reads like no other line |
| Autofix.RepairTells | src/auditautofix.cpp:130-136 | after it the line is replaced or gone and every other line and a final newline are as they were; without its only line a file keeps a blank one |
| AutofixFile.RepairFile | src/auditautofix.cpp:102-151 | on the bytes of the file: refused, or not committed, and unchanged, or the repaired text written back whole |
| AutofixFile.OtherLineKeepsItsBytes | src/auditautofix.cpp:107-141 | a repair keeps the bytes of another line if and only if they are UTF-8, with no byte-order mark at the head of the file |
| AutofixFile.RepairBatch | src/auditdialog.cpp:1829-1845 | the batch loop on bytes, reading the file anew for each repair, some of which cannot be written |
| AutofixFile.FailedWritesAreSkipped | src/auditautofix.cpp:138-141 | a repair that cannot be written is reported as not applied, and the batch is as if it had not been asked for |
| AutofixFile.BatchReadsText | src/auditautofix.cpp:107-141 | on any file the batch on bytes applies what the batch on the text applies, and writes its text, if and only if no line that starts with U+FEFF comes first, once the file was written, while a later repair fits it with or without that character |
| AutofixFile.BatchWithoutMarks | src/auditautofix.cpp:107-141 | so it is on a file with no such line; every read then gives the text of the batch |
| AutofixFile.MarkedLineIsTaken | src/auditautofix.cpp:107-141 | a concrete file on which a second plan for line one takes the line below it |
| AutofixFile.BatchIsPatchedFile | src/auditautofix.cpp:102-151 | under that condition a batch leaves the file's own lines patched, byte for byte, if and only if every line it had no edit for is UTF-8 and, on line one, has no mark; a file whose lines all go is one newline |
| AutofixFile.FileKeepsBytes | src/auditautofix.cpp:107-141 | reading and writing gives the file back if and only if it does so for every line |
| AutofixFile.StrayByteIsRewritten | src/auditautofix.cpp:107-141 | a concrete file whose first line changes with a repair of its second |
| FileLines.LinesRead | src/auditautofix.cpp:109-118 | splitting the decoded file gives the decoded byte lines, but for a mark at the head |
| Delta.ComputeDelta | src/auditdelta.cpp:30-77 | the append loops give the four specified parts |
| Delta.DeltaTells | src/auditdelta.cpp:31-78 | each part in order and as often: added are this run's findings the prior run did not know, removed the prior run's on changed files this run does not know, carried this run's that were known and the prior run's on other files that are not; merged is this run's and those |
| Delta.CarriedForSarif | src/auditrunner.cpp:2679-2687 | the runner's filter over the carried set |
| Delta.CapRecorded | src/auditdelta.cpp:79-84 | the recorded set is cut to its head, and the cut is reported |
| Delta.MergedIsTheUnion | src/auditdelta.cpp:30-77 | merged identities are the current ones and the prior ones on untouched files |
| Delta.PriorIsRemovedOrMerged | src/auditdelta.cpp:30-77 | every prior identity is in exactly one of removed and merged |
| Delta.MergingIsIdempotent | src/auditdelta.cpp:30-77 | running again with the same inputs leaves merged unchanged, element for element |
| Delta.SarifIsMerged | src/auditrunner.cpp:2659-2687 | current results followed by the filtered carried set are the merged set, if and only if no nameless finding is on both sides |
| Delta.StaysBelowTheCap | src/auditrunner.cpp:2651-2724 | over any chain of runs that leave its file alone, a finding stays recorded if and only if at every run its place among the merged findings is below 10,000, and the prior record was read or the run found it anew |
| Delta.PlaceInMerged | src/auditdelta.cpp:30-77 | that place is where this run has it, or behind all of this run's findings and those carried before it |
| Delta.SheddingIsFlagged | src/auditrunner.cpp:2651-2724 | over any such chain a finding is there, the record says it was truncated, or some run could not read the prior record |
| Delta.FlagTells | src/auditdelta.cpp:80-84 | over any chain the flag is up exactly when a run was cut short or merged more than 10,000, and every run since merged the record before it |
| Delta.FullRecordSheds | src/auditrunner.cpp:2720-2724 | with 10,000 other findings on files left alone and one new finding, the last of them is shed and the flag goes up |
| Delta.ConcreteShed | src/auditrunner.cpp:2720-2724 | a concrete such record |
| Delta.UnreadableShedsSilently | src/auditrunner.cpp:2666-2672 | a narrowed run that cannot read the prior record sheds all it did not find and leaves the truncated flag down; the envelope gives a reason instead |
| Delta.RecordingIsIdempotent | src/auditrunner.cpp:2651-2724 | recording again with the same inputs changes nothing, cut or not |
| Delta.NothingIsInvented | src/auditrunner.cpp:2651-2724 | over any chain, cap included, what is recorded was reported by some run and its file not scanned since |
| Delta.ChainKeepsDistinct | src/auditrunner.cpp:2651-2724 | over any chain, cap included, no identity is recorded twice |
| Counting.ParseToolOutput | src/auditrunner.cpp:866-1110 | suppressed count, samples, findings, truncation, raw count, parse failures and abort flag, for blank, refused, unparsable, JSON and plain-text output |
| Counting.CountEntries | src/auditrunner.cpp:921-999 | the JSON loop drops placeholders, counts suppressed entries, keeps the first 10,000 others; the raw count alone is clamped |
| Counting.CountLines | src/auditrunner.cpp:1010-1110 | the line loop counts located lines, mypy notes excepted, and records cppcheck's parse failures before suppression |
| Counting.HasUsageBanner | src/auditrunner.cpp:842-864 | walking the head of the text finds a banner exactly when one of the first eight lines of the split text is one |
| Counting.EntriesAreConserved | src/auditrunner.cpp:918-999 | suppressed plus kept is everything counted, as multisets |
| Counting.AfterFilterIsKept | src/auditrunner.cpp:2430 | raw minus suppressed is the number kept if and only if there were at most 10,000 entries, and negative if and only if more than 10,000 were suppressed |
| Counting.CountGoesNegative | src/auditrunner.cpp:995-997 | one suppressed entry past the clamp gives minus one |
| Counting.LinesAfterFilter | src/auditrunner.cpp:1108 | for plain text the difference is always the number kept |
| Counting.KeptIsUnsuppressed | src/auditrunner.cpp:946-960 | an entry is kept if and only if neither ledger nor allowlist has it |
| Counting.FindingsAreTheFirstKept | src/auditrunner.cpp:976-991 | findings are the first 10,000 kept, the flag is up exactly when some are missing, samples are the first of them |
| Counting.MoreOutputOnlyAdds | src/auditrunner.cpp:921-992 | more output never changes what earlier output contributed |
| Counting.FailuresAreFirst | src/auditrunner.cpp:1036-1068 | each unparsed file is listed once, under its first reason, suppressed or not |
| CountingRows.EntriesTell | src/auditrunner.cpp:921-996 | of a document's entries each with a file, a message or a rule counts, as often as it is there and in order; it is suppressed when learned or allowed and kept otherwise |
| CountingRows.RowsTell | src/auditrunner.cpp:960-996 | reported are the number suppressed, the first 10,000 kept with their own fields, message cut, and fingerprint, and the first few of them as samples |
| CountingRows.LinesTell | src/auditrunner.cpp:1008-1106 | of a plain-text output each located line counts but mypy's notes, in order, with its own fields, the tool as its rule |
| CountingRows.OutputTells | src/auditrunner.cpp:875-1007 | which entries an output is counted from: none of blank output, of one with a usage banner on its first eight lines, or without a document |
| SarifRuns.WriteResults | src/auditrunner.cpp:1165-1278 | the runs in order are the first 10,000 of everything; each tool's run is the first of its own findings that fit, whatever its samples are, or of its samples when it has no entry; the counters and the truncation flag are exact |
| SarifRuns.EmitCurrent | src/auditrunner.cpp:1188-1247 | one run per tool, each as many of the first of its own findings as the ceiling leaves room for behind the tools before it |
| SarifRuns.EmitRun | src/auditrunner.cpp:1233-1241 | one run takes what still fits under the ceiling and counts the rest |
| SarifRuns.CarriedShedsFirst | src/auditrunner.cpp:1249-1271 | a carried result is emitted if and only if there is one and the current ones leave room, and then every current one is emitted |
| SarifRuns.ResultsAreFindings | src/auditrunner.cpp:1116-1155 | every result is a current or a carried finding, as tagged |
| SarifRuns.UnderTheCeilingIsWhole | src/auditrunner.cpp:1165-1278 | nothing is lost if and only if current and carried findings fit the ceiling together |
| SarifRuns.EveryFindingIsWritten | src/auditrunner.cpp:1238-1262 | when all findings and carried ones fit together, the document has every finding of every tool as often as it was found, and every carried one |
| Messages.CapMessage | src/auditrunner.cpp:1631-1643 | the trimming loop is the specified cap |
| Messages.CapShape | src/auditrunner.cpp:1631-1643 | a long message becomes its own first characters, without a leading U+FEFF, one more that is U+FFFD unless ASCII, and the ellipsis |
| Messages.CapIsMet | src/auditrunner.cpp:1637 | the 256-byte cap is met if and only if the message was short, the last kept byte is ASCII, two continuation bytes end the kept part, or the message starts with U+FEFF |
| Messages.CapIsNearlyMet | src/auditrunner.cpp:1631-1643 | it is never missed by more than two bytes |
| Messages.CapIsMissed | src/auditrunner.cpp:1637 | a concrete message that misses it |
| Messages.MessageTells | src/auditrunner.cpp:1625-1642 | a message of at most 256 bytes stays; of a longer one the characters that end within 252 bytes, the next one if it is ASCII and U+FFFD otherwise, and an ellipsis |
| Glob.GlobToRegex | src/auditengine.cpp:53-77 | the left-to-right loop writes the specified expression |
| Glob.CompiledReadsBack | src/auditengine.cpp:53-77 | the expression parses, for every glob, to the glob's own atoms |
| Glob.RegexIsGlob | src/auditengine.cpp:53-77 | on newline-free paths it matches exactly what a direct recursive matcher does, `***` read as `**` and then `*` |
| Glob.CompiledExactly | src/auditengine.cpp:53-77 | the globs that agree on all newline-free paths are exactly those without an octal digit behind a NUL, or with a newline |
| Glob.PathsExactly | src/auditengine.cpp:53-77 | the paths on which all such globs agree are exactly those without a newline |
| Glob.TextTells | src/auditengine.cpp:53-77 | what is written for each piece: `.*`, `[^/]*`, `[^/]`, a letter, digit or underscore itself, `\0` for a NUL, any other character behind a backslash |
| Glob.PieceTells | src/auditengine.cpp:53-77 | `?` is one character and `*` any number of them, none a slash; `**` is everything; any other character is itself |
| Glob.PrefixTells | src/auditengine.cpp:53-77 | a glob that begins with plain text matches what begins with it and goes on as the rest does |
| LineFilter.ApplyFilter | src/auditengine.cpp:460-571 | body and count are those of splitting, stripping one CR, dropping empties, keeping what passes and taking the first `maxLines` |
| LineFilter.Walk | src/auditengine.cpp:488-571 | the streaming walk with its memo and early stop gives those lines |
| LineFilter.KeepLine | src/auditengine.cpp:519-562 | a line is kept exactly when every predicate passes, and the memo stays equal to fresh reads |
| LineFilter.PassesContext | src/auditengine.cpp:535-562 | the memoised context test is the test on a fresh read |
| LineFilter.ContextWindowContains | src/auditengine.cpp:444-458 | the window loop finds a needle exactly when a line in the window holds one |
| LineFilter.BodyHasCountLines | src/auditengine.cpp:562-571 | splitting the body gives the kept lines back; the count is their number, at most `maxLines`, and every one passes |
| LineFilter.FilterAgain | src/auditengine.cpp:460-571 | filtering a filtered body again changes nothing if and only if no kept line still ends in a carriage return |
| LineFilter.DoubleCrIsEaten | src/auditengine.cpp:510 | a concrete body that loses one carriage return at each pass |
| LineFilter.CrLfIsLf | src/auditengine.cpp:488-517 | a text with CR LF line ends filters to the same lines as with LF, under every filter, unless an LF stood behind a carriage return already; then the two differ when nothing is filtered out |
| FilterLines.FilterTells | src/auditengine.cpp:444-571 | what is left of an output are its lines without one carriage return each, in order and as often, that are not empty, hold no dropping text, do not match the pattern, hold every needed text and have no dropping text near the line they name; the first of them up to the limit |
| NearMiss.NormaliseSpaces | src/applyedits.cpp:20-36 | the loop is the specified spacing form |
| NearMiss.FoldPunctuation | src/applyedits.cpp:38-56 | the loop is the specified punctuation fold |
| NearMiss.NormalFormsCommute | src/applyedits.cpp:20-56 | spacing and folding commute on every text |
| NearMiss.SpacingIsIdempotent | src/applyedits.cpp:20-36 | spacing twice is spacing once |
| NearMiss.FoldingIsIdempotent | src/applyedits.cpp:38-56 | folding twice is folding once |
| NearMiss.FoldedIsIdempotent | src/applyedits.cpp:20-56 | so is the combined form |
| NormalForms.SpacingJoinsWords | src/applyedits.cpp:20-33 | the spacing form is the words of the text with one space between them |
| NormalForms.FoldingRetypes | src/applyedits.cpp:38-56 | the punctuation form, read from the front: a run of dashes is a hyphen, curly quotes are straight, an ellipsis three dots |
| NearMiss.SpacingImpliesFold | src/applyedits.cpp:115-122 | lines equal under spacing are equal under the fold |
| NearMiss.UniqueLineMatching | src/applyedits.cpp:59-67 | the line named is the only match; none is named for none or several |
| NearMiss.AmbiguousStaysAmbiguous | src/applyedits.cpp:115-125 | what is ambiguous under spacing has no unique line under the fold |
| NearMiss.FindNearMiss | src/applyedits.cpp:81-132 | the report is the specified one, a text of several lines by its only place across hard wraps |
| NearMiss.NearMissIsUnique | src/applyedits.cpp:111-129 | for a text of one line, a line is named if and only if it is the only one alike under spacing, or none is and it is the only one under the fold |
| EditOutcomes.NearMissTells | src/applyedits.cpp:81-113 | a text of several lines is reported where its only place across hard wraps is, by the line of the split file; one without words never is |
| ApplyEdits.CountOccurrences | src/applyedits.cpp:181 | the counting loop counts overlapping occurrences |
| ApplyEdits.CollectOccurrenceLines | src/applyedits.cpp:141-167 | the first ten occurrences, each with its line number and text, by a counter that goes on from the last |
| ApplyEdits.ApplyToContent | src/applyedits.cpp:171-241 | the edit's outcome: not found with its near miss, matched across wraps, ambiguous with its count and report, all replaced and counted, or the one replaced |
| ApplyEdits.WrappingOnlyHelps | src/applyedits.cpp:182-211 | the wrapped match changes no call that finds the text and none that replaces all |
| ApplyEdits.ReplaceAllLength | src/applyedits.cpp:222-232 | replacing all changes the length by the reported number of replacements |
| ApplyEdits.ReplaceAllByItself | src/applyedits.cpp:222-232 | replacing a text by itself changes nothing |
| ApplyEdits.EditUndoes | src/applyedits.cpp:171-241 | a unique verbatim edit is undone by the reverse one if and only if the new text is not empty and occurs once in the result |
| EditOutcomes.OutcomeTells | src/applyedits.cpp:171-241 | not found exactly when the text is empty or stands nowhere, ambiguous exactly when it stands in several places and not all are replaced, applied otherwise |
| EditOutcomes.SingleTells | src/applyedits.cpp:233-237 | one replacement keeps the text before and behind |
| EditOutcomes.AllTells | src/applyedits.cpp:219-232 | replacing all cuts the file at the old text, from the left, and joins the pieces with the new one; the number is that of the cuts |
| EditOutcomes.WrappedTells | src/applyedits.cpp:182-211 | when the text does not stand as it is, the wrapped match is taken if it is found once and can be patched, and is ambiguous if found more often |
| EditOutcomes.AmbiguityTells | src/applyedits.cpp:141-167 | an ambiguity tells the number of places and shows the first ten, each by a line of the split file |
| ApplyEdits.ApplyRange | src/applyedits.cpp:243-276 | the erase-and-insert loop gives the spliced lines, or the reason for refusing |
| ApplyEdits.RangeEditUndoes | src/applyedits.cpp:243-276 | a range edit with a replacement is undone by the range that now holds it if and only if the replaced text was not empty or the whole file |
| EditOutcomes.RangeTells | src/applyedits.cpp:243-256 | a range is edited if and only if it is in the file and both of its ends read as expected; it is refused for its bounds first, then for either end |
| EditOutcomes.RangeLines | src/applyedits.cpp:258-275 | the lines after it are the new ones, none for an empty text, in place of the old ones |
| SarifUri.LocationReadsBack | src/auditengine.cpp:1506-1531 | a path, absolute or relative, reads back as itself if and only if it does not start with U+FEFF, and without that character otherwise (section 3.4 of SARIF 2.1.0) |
| SarifUri.LocationIsInjective | src/auditengine.cpp:1506-1514 | two different paths never share a location |
| SarifUri.EscapedReadsBack | src/auditengine.cpp:1506-1531 | percent-encoding over UTF-8 is undone by decoding under the same condition (sections 2.1 and 2.3 of RFC 3986) |
| SarifUri.EscapedIsSafe | src/auditengine.cpp:1507-1509 | an escaped path is kept characters and two-digit escapes only |
| SarifUri.EscapedHasNoScheme | src/auditengine.cpp:1510-1513 | a relative path never passes for a `file://` one |
| SarifUri.RawPathReadsBack | src/auditengine.cpp:1523-1531 | an unmarked raw path reads back as itself if and only if it does not start with `file://` |
| SarifUri.EscapedTells | src/auditengine.cpp:1507-1509 | letters, digits and `-._~/` stay; every other character is written as the bytes of its UTF-8 form, two digits each |
| SarifUri.LocationTells | src/auditengine.cpp:1510-1513 | an absolute path becomes a file URI, any other a URI under the source root |
| Utf8.ReadsBack | src/auditengine.cpp:1506-1531 | a text reads back from its bytes if and only if it does not start with U+FEFF; that character is then lost |
| Utf8.BytesReadBack | src/auditautofix.cpp:109-141 | bytes read back from their text if and only if they are well-formed UTF-8 (section 3 of RFC 3629) |
| Utf8.FileReadsBack | src/auditautofix.cpp:109-141 | read as a file, if and only if they also have no mark at the head |

## Left out

- UTF-16: texts are sequences of Unicode scalar values, so lone surrogates and lengths in code units are not modelled.
- Letter classes, case folding, the file-absolute test, path existence and the project's file contents are parameters.
- The line-shape, severity, suppression-comment, parse-failure and usage-banner regular expressions are parameters; of
  the expression engine only the fragment the glob compiler emits is modelled, with its default newline convention.
- Lexer.LineHasCode: the file kind is decided from a lower-cased path that is passed in; lower-casing is not modelled.
- SarifUri.LocationReadsBack: a malformed escape in a URI the subsystem did not write stays as it is here; the library
  may read it differently.
- Counting.ParseToolOutput: finding the JSON document in the stream, its field names and the flattening of nested
  containers are one parameter that yields entries; secret scrubbing before the parse is not modelled.
- Multiplexer.EveryToolEndsOnce: real processes, signals and elapsed times are replaced by events; the tally, the
  partiality list and the trimming of samples to the envelope size after the loop are not part of it.
- Lanes.OutcomesAreAPrefix: real threads are replaced by interleaved atomic steps, and lane functions by their output.
- RunCache.NamedOrDeletedAlways: about artefacts that were recorded; those of runs that were never recorded, stale
  fallback files, artefacts deleted or added by others and manifests that became unreadable are outside the claim.
- RunCache.AuditCache.RecordRun: distinct base names stand for distinct paths; paths outside the directory and the
  owner-only permission bits themselves are not modelled.
- Ledger.LedgerFile.RecordEntries: the lock around a call is assumed held; acquiring it and its timeout are left out.
- Ledger.ShortWriteKeepsAPrefix: the header line of a new ledger is taken to be written whole.
- Autofix.ApplyBatch: one file at a time, with its repairs already highest line first; the sort over several files,
  the size limit, the repair log and the recognition of repairable patterns are left out.
- AutofixFile.BatchIsPatchedFile: under the condition of `BatchReadsText`; what a batch leaves when a line with a mark
  came first is told by `RepairAll` only.
- DialogTheorems.RowsAreOfThisRun: assumes that a failed start leaves no process behind; a start that outlasts its five
  seconds and finishes late is not modelled.
- DialogTheorems.FinishedIsTheSelection: the initial toggles are any; that unavailable checks start off is not used.
- RuleQuality.RuleQualityTracker.Report: rows that tie are in any order; a day is 24 hours of the clock, without the
  change to and from summer time.
- ApplyEdits.ApplyToContent: how a text is matched and replaced across hard wraps is a parameter.
- NearMiss.FindNearMiss: the places of a text of several lines across hard wraps are a parameter.
- Delta.StaysBelowTheCap: for an identity that stands for one file in every run; the fingerprint hash is not modelled.
- SarifRuns.WriteResults: drivers, invocations, notifications, regions and levels of a run are not modelled.
- DialogSlots.AuditDialog.OnCheckFinished: parsing, suppression, deduplication and rendering of a check's findings.
- Run-slot counting, version comparison, per-check finding caps, corroboration between tools, the check catalogue,
  command lines, include-path and endpoint policy, HTML, templates, triage and all widgets: easy members or no
  correctness core.
