/** What each request of a ledger call comes to, what is held after it, and what
    the call writes. */
module LedgerResults {
  import opened Ledger
  import opened Options

  // Place k of the list holds the fingerprint.
  predicate HeldAt(list: seq<Entry>, fp: Fingerprint, k: nat) {
    k < |list| && list[k].fingerprint == fp
  }

  ghost predicate HeldFirst(list: seq<Entry>, fp: Fingerprint, k: nat) {
    HeldAt(list, fp, k) && forall j: nat | j < k :: !HeldAt(list, fp, j)
  }

  // The entry asked for, with the clock's time if it has none.
  predicate IsStamped(e: Entry, r: Request) {
    && e.fingerprint == r.entry.fingerprint && e.rule == r.entry.rule && e.reason == r.entry.reason
    && e.timestamp == if r.entry.timestamp == "" then r.clock else r.entry.timestamp
  }

  // A fingerprint nobody holds is recorded as asked; one that is held is left
  // as it is, unless the request replaces its reason by another: then it keeps
  // its rule and takes reason and time.
  ghost predicate Answers(list: seq<Entry>, r: Request, result: Result) {
    var fp := r.entry.fingerprint;
    && (result.outcome == Recorded <==> forall k: nat :: !HeldAt(list, fp, k))
    && (result.outcome == Recorded ==> IsStamped(result.entry, r))
    && forall k: nat | HeldFirst(list, fp, k) ::
         && (result.outcome == ReasonReplaced <==> r.replaceReason && list[k].reason != r.entry.reason)
         && (result.outcome == AlreadyRecorded ==> result.entry == list[k])
         && (result.outcome == ReasonReplaced ==>
              result.entry.rule == list[k].rule && IsStamped(result.entry.(rule := r.entry.rule), r))
  }

  // After it the fingerprint is held as answered, and nothing else changed.
  ghost predicate HoldsAnswer(list: seq<Entry>, r: Request, result: Result, after: seq<Entry>) {
    && |list| <= |after| <= |list| + 1 && (|after| > |list| <==> result.outcome == Recorded)
    && (|after| > |list| ==> after[|list|] == result.entry)
    && forall k | 0 <= k < |list| ::
         after[k] == if HeldFirst(list, r.entry.fingerprint, k) then result.entry else list[k]
  }

  lemma DecisionAnswers(list: seq<Entry>, r: Request)
    ensures Answers(list, r, Decide(list, r).result)
    ensures HoldsAnswer(list, r, Decide(list, r).result, Decide(list, r).stored)
  {
    var k := Find(list, r.entry.fingerprint);
    if k < |list| {
      assert HeldAt(list, r.entry.fingerprint, k);
    }
    forall j: nat | HeldFirst(list, r.entry.fingerprint, j) ensures j == k {
      assert !HeldAt(list, r.entry.fingerprint, k) || j == k || j > k;
    }
  }

  lemma {:induction false} OneResultEach(list: seq<Entry>, requests: seq<Request>)
    ensures |PlanOf(list, requests).results| == |requests|
    decreases |requests|
  {
    if requests != [] {
      OneResultEach(Decide(list, requests[0]).stored, requests[1..]);
    }
  }

  // Every request of a batch is answered against what the ones before it left.
  lemma RequestTells(list: seq<Entry>, requests: seq<Request>, k: nat)
    requires k < |requests|
    ensures |PlanOf(list, requests).results| == |requests|
    ensures var held := PlanOf(list, requests[..k]).stored;
            var result := PlanOf(list, requests).results[k];
            && Answers(held, requests[k], result)
            && HoldsAnswer(held, requests[k], result, PlanOf(list, requests[..k + 1]).stored)
  {
    var a, r, rest := requests[..k], requests[k], requests[k + 1..];
    var held := PlanOf(list, a).stored;
    assert requests == a + ([r] + rest) && requests[..k + 1] == a + [r];
    PlanConcat(list, a, [r] + rest);
    PlanConcat(list, a, [r]);
    PlanHeads(held, r, rest);
    PlanHeads(held, r, []);
    OneResultEach(list, a);
    OneResultEach(list, requests);
    assert [r] + [] == [r];
    DecisionAnswers(held, r);
  }

  // The entries that were not there before, or not so.
  function Told(results: seq<Result>): seq<Entry> {
    if results == [] then []
    else (if results[0].outcome == AlreadyRecorded then [] else [results[0].entry]) + Told(results[1..])
  }

  lemma {:induction false} RowsAreTold(list: seq<Entry>, requests: seq<Request>)
    ensures PlanOf(list, requests).rows == Told(PlanOf(list, requests).results)
    decreases |requests|
  {
    if requests != [] {
      var d := Decide(list, requests[0]);
      var p := PlanOf(d.stored, requests[1..]);
      RowsAreTold(d.stored, requests[1..]);
      assert ([d.result] + p.results)[1..] == p.results;
    }
  }

  // Sixteen digits from 0 to 9 and a to f, and at most a newline behind them.
  predicate IsFingerprint(fp: string) {
    && 16 <= |fp| <= 17 && (|fp| == 17 ==> fp[16] == '\n')
    && forall k | 0 <= k < 16 :: fp[k] in "0123456789abcdef"
  }

  lemma ValidIsFingerprint(e: Entry)
    ensures IsValid(e) <==> IsFingerprint(e.fingerprint)
  {
    assert forall c: char :: c in "0123456789abcdef" <==> '0' <= c <= '9' || 'a' <= c <= 'f' by {
      forall c: char ensures c in "0123456789abcdef" <==> '0' <= c <= '9' || 'a' <= c <= 'f' {
        HexDigits(c);
      }
    }
  }

  lemma HexDigits(c: char)
    ensures c in "0123456789abcdef" <==> '0' <= c <= '9' || 'a' <= c <= 'f'
  {
    var digits := "0123456789abcdef";
    if '0' <= c <= '9' {
      assert digits[c as int - '0' as int] == c;
    } else if 'a' <= c <= 'f' {
      assert digits[c as int - 'a' as int + 10] == c;
    }
  }

  predicate AllFingerprints(requests: seq<Request>) {
    forall k | 0 <= k < |requests| :: IsFingerprint(requests[k].entry.fingerprint)
  }

  lemma ValidAreFingerprints(requests: seq<Request>)
    ensures AllValid(requests) <==> AllFingerprints(requests)
  {
    forall k | 0 <= k < |requests|
      ensures IsValid(requests[k].entry) <==> IsFingerprint(requests[k].entry.fingerprint)
    {
      ValidIsFingerprint(requests[k].entry);
    }
  }

  // A call gives its results unless a fingerprint is none, or it was to write
  // and could not. It changes the file only when it was to write, had something
  // to and was not refused.
  lemma CallTells(f: File, requests: seq<Request>, dryRun: bool, dirOk: bool, w: Write)
    requires Possible(w, PlanOf(Load(f), requests).rows)
    ensures var (after, results) := Recording(f, requests, dryRun, dirOk, w);
            var planned := PlanOf(Load(f), requests).results;
            var writes := AllFingerprints(requests) && !dryRun && dirOk && Told(planned) != [];
            && (results.Some? <==>
              AllFingerprints(requests) && (dryRun || (dirOk && (Told(planned) == [] || w == Full))))
            && (results.Some? ==> results.value == planned)
            && (!writes || w == Refused ==> after == f)
  {
    RowsAreTold(Load(f), requests);
    ValidAreFingerprints(requests);
  }

  // The lines a full write leaves before the new ones.
  function LinesBefore(f: File): seq<Line> {
    if f.lines == [] && f.tail == None then [Comment] else f.lines
  }

  // A full write adds a line for each entry told, in order, behind the lines of
  // the file, or behind a comment line in a new one; a torn last line is spoiled
  // together with the first of them, unless it was blank.
  lemma FileTells(f: File, requests: seq<Request>, told: seq<Entry>, k: nat)
    requires AllValid(requests) && told == Told(PlanOf(Load(f), requests).results) && k < |told|
    ensures var after := Recording(f, requests, false, true, Full).0;
            var n := |LinesBefore(f)|;
            && after.tail == None && |after.lines| == n + |told| && after.lines[..n] == LinesBefore(f)
            && (if k == 0 && f.tail.Some? && f.tail != Some(Blank) then !after.lines[n].Row?
                else after.lines[n + k] == Row(told[k]))
  {
    FullWriteIs(f, requests, told);
    AppendTells(WithHeader(f), told, k);
  }

  lemma FullWriteIs(f: File, requests: seq<Request>, told: seq<Entry>)
    requires AllValid(requests) && told == Told(PlanOf(Load(f), requests).results) != []
    ensures Recording(f, requests, false, true, Full).0 == Append(WithHeader(f), Rows(told))
    ensures WithHeader(f).lines == LinesBefore(f) && WithHeader(f).tail == f.tail
  {
    RowsAreTold(Load(f), requests);
  }

  lemma AppendTells(f: File, told: seq<Entry>, k: nat)
    requires k < |told|
    ensures var after := Append(f, Rows(told));
            var n := |f.lines|;
            && after.tail == None && |after.lines| == n + |told| && after.lines[..n] == f.lines
            && (if k == 0 && f.tail.Some? && f.tail != Some(Blank) then !after.lines[n].Row?
                else after.lines[n + k] == Row(told[k]))
  {
    if f.tail.Some? {
      var first, rest := [Glue(f.tail.value, Rows(told)[0])], Rows(told)[1..];
      assert f.lines + first + rest == f.lines + (first + rest);
      assert (f.lines + (first + rest))[|f.lines| + k] == (first + rest)[k];
    }
  }
}
