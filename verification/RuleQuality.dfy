/** The rule-quality tracker: fires and suppressions per rule, the report by
    false-positive rate, and what a save and reload leaves of it: the fires of
    the days in retention, and the newest of the suppressions in retention up
    to a number, with their times in whole seconds. */
module RuleQuality {
  import opened FireDays
  import opened Options
  import opened Suppressions

  // `lastFire` is a day, `lastSuppression` a time.
  datatype RuleStats = RuleStats(
    fires30d: nat, suppressions30d: nat, firesAllTime: nat, suppressionsAllTime: nat,
    lastFire: Option<int>, lastSuppression: Option<int>, fpRate30d: int)

  datatype Row = Row(rule: string, stats: RuleStats)

  // What is on disk: the fire arrays and the suppression rows.
  datatype Disk = Disk(file: File, suppressions: seq<Suppression>)

  const DAY := 86400000
  const MAX_RECORDS := 50000

  const NO_STATS := RuleStats(0, 0, 0, 0, None, None, -1)

  function DayOf(time: int): int {
    time / DAY
  }

  // Start of the thirty-day window.
  function Cutoff(now: int): int {
    now - 30 * DAY
  }

  // Suppressions of a rule at or after `from`.
  function CountSince(list: seq<Suppression>, rule: string, from: int): nat {
    if list == [] then 0
    else
      var r := list[|list| - 1];
      CountSince(list[..|list| - 1], rule, from) + (if r.rule == rule && r.time >= from then 1 else 0)
  }

  function CountAll(list: seq<Suppression>, rule: string): nat {
    if list == [] then 0
    else CountAll(list[..|list| - 1], rule) + (if list[|list| - 1].rule == rule then 1 else 0)
  }

  function Later(a: Option<int>, b: int): Option<int> {
    if a.None? || b > a.value then Some(b) else a
  }

  // The last day a rule fired, and the last time it was suppressed.
  function LastFire(fires: seq<FireDay>, rule: string): Option<int> {
    if fires == [] then None
    else
      var b := fires[|fires| - 1];
      var before := LastFire(fires[..|fires| - 1], rule);
      if b.rule == rule then Later(before, b.day) else before
  }

  function LastSuppression(list: seq<Suppression>, rule: string): Option<int> {
    if list == [] then None
    else
      var r := list[|list| - 1];
      var before := LastSuppression(list[..|list| - 1], rule);
      if r.rule == rule then Later(before, r.time) else before
  }

  // Percent of fires that were suppressed, at most 100; -1 without fires.
  function Rate(fires: nat, suppressed: nat): (rate: int)
    ensures rate == -1 <==> fires == 0
    ensures -1 <= rate <= 100
  {
    if fires == 0 then -1
    else
      var rate := 100 * suppressed / fires;
      if rate > 100 then 100 else rate
  }

  // What is known of one rule.
  ghost function StatsOf(fires: seq<FireDay>, suppressions: seq<Suppression>, now: int, rule: string): RuleStats {
    var f30 := Sum(fires, OfRuleSince(rule, DayOf(Cutoff(now))));
    var s30 := CountSince(suppressions, rule, Cutoff(now));
    RuleStats(f30, s30, Sum(fires, OfRule(rule)), CountAll(suppressions, rule),
              LastFire(fires, rule), LastSuppression(suppressions, rule), Rate(f30, s30))
  }

  ghost function RulesOf(fires: seq<FireDay>, suppressions: seq<Suppression>): set<string> {
    (set b | b in fires :: b.rule) + (set r | r in suppressions :: r.rule)
  }

  // Rows counted so far: every rule's, with nothing for a rule not met yet.
  ghost predicate Counted(rows: map<string, RuleStats>, fires: seq<FireDay>, suppressions: seq<Suppression>, now: int) {
    && rows.Keys == RulesOf(fires, suppressions)
    && forall rule ::
      (if rule in rows then rows[rule] else NO_STATS) == StatsOf(fires, suppressions, now, rule).(fpRate30d := -1)
  }

  lemma CountFire(rows: map<string, RuleStats>, fires: seq<FireDay>, i: nat, now: int, row: RuleStats)
    requires i < |fires| && Counted(rows, fires[..i], [], now)
    requires var b := fires[i];
             var old_ := if b.rule in rows then rows[b.rule] else NO_STATS;
             row == old_.(firesAllTime := old_.firesAllTime + b.count, lastFire := Later(old_.lastFire, b.day),
                          fires30d := old_.fires30d + (if b.day >= DayOf(Cutoff(now)) then b.count else 0))
    ensures Counted(rows[fires[i].rule := row], fires[..i + 1], [], now)
  {
    var b := fires[i];
    var next := rows[b.rule := row];
    assert fires[..i + 1] == fires[..i] + [b];
    assert RulesOf(fires[..i + 1], []) == RulesOf(fires[..i], []) + {b.rule};
    forall rule ensures (if rule in next then next[rule] else NO_STATS)
        == StatsOf(fires[..i + 1], [], now, rule).(fpRate30d := -1) {
      StatsAfterFire(fires[..i], b, now, rule);
    }
  }

  // One more bucket, for one rule.
  lemma StatsAfterFire(fires: seq<FireDay>, b: FireDay, now: int, rule: string)
    ensures var was := StatsOf(fires, [], now, rule);
            StatsOf(fires + [b], [], now, rule).(fpRate30d := -1)
              == (if rule != b.rule then was
                  else was.(firesAllTime := was.firesAllTime + b.count, lastFire := Later(was.lastFire, b.day),
                            fires30d := was.fires30d + (if b.day >= DayOf(Cutoff(now)) then b.count else 0)))
                 .(fpRate30d := -1)
  {
    assert (fires + [b])[..|fires|] == fires;
    SumAppend(fires, b, OfRule(rule));
    SumAppend(fires, b, OfRuleSince(rule, DayOf(Cutoff(now))));
  }

  lemma CountSuppression(rows: map<string, RuleStats>, fires: seq<FireDay>, list: seq<Suppression>, i: nat, now: int,
      row: RuleStats)
    requires i < |list| && Counted(rows, fires, list[..i], now)
    requires var r := list[i];
             var old_ := if r.rule in rows then rows[r.rule] else NO_STATS;
             row == old_.(suppressionsAllTime := old_.suppressionsAllTime + 1,
                          lastSuppression := Later(old_.lastSuppression, r.time),
                          suppressions30d := old_.suppressions30d + (if r.time >= Cutoff(now) then 1 else 0))
    ensures Counted(rows[list[i].rule := row], fires, list[..i + 1], now)
  {
    var r := list[i];
    assert list[..i + 1] == list[..i] + [r] && list[..i + 1][..i] == list[..i];
    assert RulesOf(fires, list[..i + 1]) == RulesOf(fires, list[..i]) + {r.rule};
  }

  method TallyFires(fires: seq<FireDay>, now: int) returns (rows: map<string, RuleStats>)
    ensures Counted(rows, fires, [], now)
  {
    rows := map[];
    assert fires[..0] == [];
    for i := 0 to |fires|
      invariant Counted(rows, fires[..i], [], now)
    {
      var b := fires[i];
      var row := if b.rule in rows then rows[b.rule] else NO_STATS;
      row := row.(firesAllTime := row.firesAllTime + b.count, lastFire := Later(row.lastFire, b.day),
                  fires30d := row.fires30d + (if b.day >= DayOf(Cutoff(now)) then b.count else 0));
      CountFire(rows, fires, i, now, row);
      rows := rows[b.rule := row];
    }
    assert fires[..|fires|] == fires;
  }

  method TallySuppressions(counted: map<string, RuleStats>, fires: seq<FireDay>, list: seq<Suppression>, now: int)
    returns (rows: map<string, RuleStats>)
    requires Counted(counted, fires, [], now)
    ensures Counted(rows, fires, list, now)
  {
    rows := counted;
    assert list[..0] == [];
    for i := 0 to |list|
      invariant Counted(rows, fires, list[..i], now)
    {
      var r := list[i];
      var row := if r.rule in rows then rows[r.rule] else NO_STATS;
      row := row.(suppressionsAllTime := row.suppressionsAllTime + 1,
                  lastSuppression := Later(row.lastSuppression, r.time),
                  suppressions30d := row.suppressions30d + (if r.time >= Cutoff(now) then 1 else 0));
      CountSuppression(rows, fires, list, i, now, row);
      rows := rows[r.rule := row];
    }
    assert list[..|list|] == list;
  }

  // Highest rate first, then most fires.
  predicate Before(a: RuleStats, b: RuleStats) {
    a.fpRate30d > b.fpRate30d || (a.fpRate30d == b.fpRate30d && a.fires30d > b.fires30d)
  }

  ghost predicate Ranked(rows: seq<Row>) {
    forall i, j | 0 <= i < j < |rows| :: rows[i].rule != rows[j].rule && !Before(rows[j].stats, rows[i].stats)
  }

  // The rows are those of the map, for the rules in `done`.
  ghost predicate RowsOf(rows: seq<Row>, all: map<string, RuleStats>, done: set<string>) {
    && (forall k | 0 <= k < |rows| :: rows[k].rule in done && rows[k].rule in all && rows[k].stats == all[rows[k].rule])
    && (forall rule | rule in done :: exists k :: 0 <= k < |rows| && rows[k].rule == rule)
  }

  method PlaceOf(rows: seq<Row>, stats: RuleStats) returns (k: nat)
    requires Ranked(rows)
    ensures k <= |rows|
    ensures forall j | 0 <= j < k :: !Before(stats, rows[j].stats)
    ensures forall j | k <= j < |rows| :: !Before(rows[j].stats, stats)
  {
    k := 0;
    while k < |rows| && !Before(stats, rows[k].stats)
      invariant k <= |rows| && forall j | 0 <= j < k :: !Before(stats, rows[j].stats)
    {
      k := k + 1;
    }
  }

  lemma PutKeepsRank(rows: seq<Row>, k: nat, row: Row)
    requires Ranked(rows) && k <= |rows| && forall j | 0 <= j < |rows| :: rows[j].rule != row.rule
    requires forall j | 0 <= j < k :: !Before(row.stats, rows[j].stats)
    requires forall j | k <= j < |rows| :: !Before(rows[j].stats, row.stats)
    ensures Ranked(Inserted(rows, k, row))
  {
  }

  // Every rule that had a row still has one.
  lemma StillHasRow(rows: seq<Row>, k: nat, row: Row, rule: string)
    requires k <= |rows|
    requires rule == row.rule || exists j :: 0 <= j < |rows| && rows[j].rule == rule
    ensures var out := Inserted(rows, k, row); exists j :: 0 <= j < |out| && out[j].rule == rule
  {
    var out := Inserted(rows, k, row);
    if rule == row.rule {
      assert out[k].rule == rule;
    } else {
      var j :| 0 <= j < |rows| && rows[j].rule == rule;
      assert out[if j < k then j else j + 1].rule == rule;
    }
  }

  lemma PutKeepsRows(rows: seq<Row>, k: nat, row: Row, all: map<string, RuleStats>, done: set<string>)
    requires RowsOf(rows, all, done) && k <= |rows| && row.rule in all && row.stats == all[row.rule]
    ensures RowsOf(Inserted(rows, k, row), all, done + {row.rule})
  {
    var out := Inserted(rows, k, row);
    assert forall j | 0 <= j < |out| :: out[j] == if j < k then rows[j] else if j == k then row else rows[j - 1];
    forall rule | rule in done + {row.rule} ensures exists j :: 0 <= j < |out| && out[j].rule == rule {
      StillHasRow(rows, k, row, rule);
    }
  }

  // The map's rows in report order; ties are in any order.
  method SortRows(all: map<string, RuleStats>) returns (rows: seq<Row>)
    ensures Ranked(rows) && RowsOf(rows, all, all.Keys)
  {
    rows := [];
    var keys := all.Keys;
    while keys != {}
      invariant keys <= all.Keys && Ranked(rows) && RowsOf(rows, all, all.Keys - keys)
      decreases |keys|
    {
      var rule :| rule in keys;
      var row := Row(rule, all[rule]);
      var k := PlaceOf(rows, row.stats);
      PutKeepsRank(rows, k, row);
      PutKeepsRows(rows, k, row, all, all.Keys - keys);
      rows := Inserted(rows, k, row);
      assert all.Keys - (keys - {rule}) == all.Keys - keys + {rule};
      keys := keys - {rule};
    }
    assert all.Keys - {} == all.Keys;
  }

  // A recorded fire adds exactly one to the rule's all-time total, one to its
  // thirty-day total if the day is in the window, and nothing elsewhere.
  lemma FireIsReportedOnce(fires: seq<FireDay>, suppressions: seq<Suppression>, now: int, rule: string, today: int,
      r: string)
    requires rule != ""
    ensures var before := StatsOf(fires, suppressions, now, r);
            var after := StatsOf(Fire(fires, rule, today), suppressions, now, r);
            && after.firesAllTime == before.firesAllTime + (if r == rule then 1 else 0)
            && after.fires30d == before.fires30d + (if r == rule && today >= DayOf(Cutoff(now)) then 1 else 0)
            && after.suppressionsAllTime == before.suppressionsAllTime
                 && after.suppressions30d == before.suppressions30d
  {
    FireAddsOne(fires, rule, today, OfRule(r));
    FireAddsOne(fires, rule, today, OfRuleSince(r, DayOf(Cutoff(now))));
  }

  // ------------------------------------------------------------- save and load

  function InTime(list: seq<Suppression>, from: int): seq<Suppression> {
    if list == [] then []
    else
      var rest := InTime(list[..|list| - 1], from);
      if list[|list| - 1].time < from then rest else rest + [list[|list| - 1]]
  }

  // The newest rows, when there are too many.
  function LastOf(list: seq<Suppression>): seq<Suppression> {
    if |list| > MAX_RECORDS then list[|list| - MAX_RECORDS..] else list
  }

  // The file's time format has no milliseconds.
  function Whole(time: int): int {
    time - time % 1000
  }

  function WholeSeconds(list: seq<Suppression>): (r: seq<Suppression>)
    ensures |r| == |list|
  {
    seq(|list|, k requires 0 <= k < |list| => list[k].(time := Whole(list[k].time)))
  }

  function Oldest(now: int): int {
    now - RETENTION_DAYS * DAY
  }

  function SavedSuppressions(list: seq<Suppression>, now: int): seq<Suppression> {
    WholeSeconds(LastOf(InTime(list, Oldest(now))))
  }

  function Named(list: seq<Suppression>): seq<Suppression> {
    if list == [] then []
    else
      var rest := Named(list[..|list| - 1]);
      if list[|list| - 1].rule == "" then rest else rest + [list[|list| - 1]]
  }

  // What memory holds after a save at `now` and a reload.
  function Reloaded(list: seq<Suppression>, now: int): seq<Suppression> {
    Named(SavedSuppressions(list, now))
  }

  lemma {:induction false} InTimeConcat(a: seq<Suppression>, b: seq<Suppression>, from: int)
    ensures InTime(a + b, from) == InTime(a, from) + InTime(b, from)
    decreases |b|
  {
    if b == [] {
      assert a + b == a;
    } else {
      var rest, last := b[..|b| - 1], b[|b| - 1];
      assert (a + b)[..|a + b| - 1] == a + rest;
      InTimeConcat(a, rest, from);
      assert InTime(a, from) + (InTime(rest, from) + [last]) == InTime(a, from) + InTime(rest, from) + [last];
    }
  }

  lemma InTimeHead(list: seq<Suppression>, from: int)
    requires list != []
    ensures InTime(list, from) == (if list[0].time < from then [] else [list[0]]) + InTime(list[1..], from)
  {
    assert list == [list[0]] + list[1..];
    InTimeConcat([list[0]], list[1..], from);
    assert InTime([list[0]][..0], from) == [];
  }

  // The first row that the clamp leaves, of those in time.
  function FirstKept(list: seq<Suppression>, from: int): (c: nat)
    ensures c <= |list|
  {
    if |InTime(list, from)| <= MAX_RECORDS then 0 else 1 + FirstKept(list[1..], from)
  }

  // A row is clamped off exactly when more rows than the clamp allows are in
  // time from it on.
  lemma {:induction false} ClampedByCount(list: seq<Suppression>, from: int, k: nat)
    requires k < |list|
    ensures k < FirstKept(list, from) <==> |InTime(list[k..], from)| > MAX_RECORDS
  {
    InTimeHead(list, from);
    if k == 0 {
      assert list[0..] == list;
    } else {
      assert list[1..][k - 1..] == list[k..];
      ClampedByCount(list[1..], from, k - 1);
      FewerFrom(list, from, k);
    }
  }

  lemma FewerFrom(list: seq<Suppression>, from: int, k: nat)
    requires k <= |list|
    ensures |InTime(list[k..], from)| <= |InTime(list, from)|
  {
    assert list == list[..k] + list[k..];
    InTimeConcat(list[..k], list[k..], from);
  }

  // Past the clamp the oldest row goes, in time or not.
  lemma ClampTakesFirst(list: seq<Suppression>, from: int)
    requires |InTime(list, from)| > MAX_RECORDS
    ensures LastOf(InTime(list, from)) == LastOf(InTime(list[1..], from))
  {
    InTimeHead(list, from);
  }

  // What is saved are the rows in time from the first kept one on.
  lemma {:induction false} LastOfIsFrom(list: seq<Suppression>, from: int)
    ensures LastOf(InTime(list, from)) == InTime(list[FirstKept(list, from)..], from)
  {
    if |InTime(list, from)| > MAX_RECORDS {
      ClampTakesFirst(list, from);
      LastOfIsFrom(list[1..], from);
      var c := FirstKept(list[1..], from);
      assert list[1..][c..] == list[c + 1..];
    } else {
      assert list[0..] == list;
    }
  }

  lemma {:induction false} CountConcat(a: seq<Suppression>, b: seq<Suppression>, rule: string, since: int)
    ensures CountSince(a + b, rule, since) == CountSince(a, rule, since) + CountSince(b, rule, since)
    ensures CountAll(a + b, rule) == CountAll(a, rule) + CountAll(b, rule)
    decreases |b|
  {
    if b == [] {
      assert a + b == a;
    } else {
      assert (a + b)[..|a + b| - 1] == a + b[..|b| - 1];
      CountConcat(a, b[..|b| - 1], rule, since);
    }
  }

  // A row of the rule counts in the window, or at all.
  predicate InWindow(r: Suppression, rule: string, since: int) {
    r.rule == rule && r.time >= since
  }

  lemma {:induction false} NamedKeepsCounts(list: seq<Suppression>, rule: string, since: int)
    requires rule != ""
    ensures CountSince(Named(list), rule, since) == CountSince(list, rule, since)
    ensures CountAll(Named(list), rule) == CountAll(list, rule)
  {
    if list != [] {
      var rest, last := list[..|list| - 1], list[|list| - 1];
      NamedKeepsCounts(rest, rule, since);
      if last.rule != "" {
        assert (Named(rest) + [last])[..|Named(rest)|] == Named(rest);
      }
    }
  }

  // Row k of the rule is in the window, and a save loses it there: it is
  // clamped off, or its second began before the window.
  predicate LostFromWindow(list: seq<Suppression>, now: int, rule: string, since: int, k: nat)
    requires k < |list|
  {
    && InWindow(list[k], rule, since)
    && (|InTime(list[k..], Oldest(now))| > MAX_RECORDS || Whole(list[k].time) < since)
  }

  // Row k of the rule is out of retention, or clamped off.
  predicate LostForGood(list: seq<Suppression>, now: int, rule: string, k: nat)
    requires k < |list|
  {
    list[k].rule == rule && (|InTime(list[k..], Oldest(now))| > MAX_RECORDS || list[k].time < Oldest(now))
  }

  function Trues(s: seq<bool>): nat {
    if s == [] then 0 else (if s[0] then 1 else 0) + Trues(s[1..])
  }

  lemma {:induction false} NoneTrue(s: seq<bool>)
    ensures Trues(s) == 0 <==> forall k | 0 <= k < |s| :: !s[k]
  {
    if s != [] {
      NoneTrue(s[1..]);
      assert s == [s[0]] + s[1..];
    }
  }

  // Which rows of the rule a save loses from a window, and for good; and how
  // many.
  function LostRows(list: seq<Suppression>, now: int, rule: string, since: int): (r: seq<bool>)
    ensures |r| == |list|
  {
    seq(|list|, k requires 0 <= k < |list| => LostFromWindow(list, now, rule, since, k))
  }

  function RowsLostForGood(list: seq<Suppression>, now: int, rule: string): (r: seq<bool>)
    ensures |r| == |list|
  {
    seq(|list|, k requires 0 <= k < |list| => LostForGood(list, now, rule, k))
  }

  function LostIn(list: seq<Suppression>, now: int, rule: string, since: int): nat {
    Trues(LostRows(list, now, rule, since))
  }

  function LostInAll(list: seq<Suppression>, now: int, rule: string): nat {
    Trues(RowsLostForGood(list, now, rule))
  }

  lemma LostHead(list: seq<Suppression>, now: int, rule: string, since: int)
    requires list != []
    ensures LostIn(list, now, rule, since)
         == (if LostFromWindow(list, now, rule, since, 0) then 1 else 0) + LostIn(list[1..], now, rule, since)
    ensures LostInAll(list, now, rule)
         == (if LostForGood(list, now, rule, 0) then 1 else 0) + LostInAll(list[1..], now, rule)
  {
    var rest := list[1..];
    assert forall k | 0 <= k < |rest| :: list[k + 1..] == rest[k..];
    assert LostRows(list, now, rule, since)[1..] == LostRows(rest, now, rule, since);
    assert RowsLostForGood(list, now, rule)[1..] == RowsLostForGood(rest, now, rule);
  }

  lemma CountHead(r: Suppression, rest: seq<Suppression>, rule: string, since: int)
    ensures CountSince([r] + rest, rule, since)
         == (if InWindow(r, rule, since) then 1 else 0) + CountSince(rest, rule, since)
    ensures CountAll([r] + rest, rule) == (if r.rule == rule then 1 else 0) + CountAll(rest, rule)
  {
    CountConcat([r], rest, rule, since);
    assert [r][..0] == [];
  }

  lemma WholeHead(r: Suppression, rest: seq<Suppression>)
    ensures WholeSeconds([r] + rest) == [r.(time := Whole(r.time))] + WholeSeconds(rest)
  {
  }

  // Saved rows and lost rows are all rows.
  lemma {:induction false} SavedAndLost(list: seq<Suppression>, now: int, rule: string, since: int)
    requires since >= Oldest(now)
    ensures CountSince(SavedSuppressions(list, now), rule, since) + LostIn(list, now, rule, since)
         == CountSince(list, rule, since)
    ensures CountAll(SavedSuppressions(list, now), rule) + LostInAll(list, now, rule) == CountAll(list, rule)
  {
    if list == [] {
      assert WholeSeconds([]) == [];
    } else {
      var head, rest, from := list[0], list[1..], Oldest(now);
      SavedAndLost(rest, now, rule, since);
      LostHead(list, now, rule, since);
      assert list == [head] + rest && list[0..] == list;
      CountHead(head, rest, rule, since);
      InTimeHead(list, from);
      if |InTime(list, from)| > MAX_RECORDS {
        ClampTakesFirst(list, from);
      } else if head.time >= from {
        WholeHead(head, InTime(rest, from));
        CountHead(head.(time := Whole(head.time)), WholeSeconds(InTime(rest, from)), rule, since);
      } else {
        assert [] + InTime(rest, from) == InTime(rest, from);
      }
    }
  }

  // Saved at `now` and loaded, a rule has the suppressions it had, in a window
  // or in all, less the rows that are lost there.
  lemma SuppressionsSurvive(list: seq<Suppression>, now: int, rule: string, since: int)
    requires rule != "" && since >= Oldest(now)
    ensures CountSince(Reloaded(list, now), rule, since)
         == CountSince(list, rule, since) - LostIn(list, now, rule, since)
    ensures CountAll(Reloaded(list, now), rule) == CountAll(list, rule) - LostInAll(list, now, rule)
    ensures LostIn(list, now, rule, since) == 0
       <==> forall k | 0 <= k < |list| :: !LostFromWindow(list, now, rule, since, k)
    ensures LostInAll(list, now, rule) == 0 <==> forall k | 0 <= k < |list| :: !LostForGood(list, now, rule, k)
  {
    NamedKeepsCounts(SavedSuppressions(list, now), rule, since);
    SavedAndLost(list, now, rule, since);
    var rows, good := LostRows(list, now, rule, since), RowsLostForGood(list, now, rule);
    NoneTrue(rows);
    NoneTrue(good);
    assert forall k | 0 <= k < |list| :: rows[k] == LostFromWindow(list, now, rule, since, k);
    assert forall k | 0 <= k < |list| :: good[k] == LostForGood(list, now, rule, k);
  }

  lemma {:induction false} KeptIsAll(list: seq<FireDay>, cutoff: int, p: (string, int) -> bool)
    ensures Sum(list, Kept(p, cutoff)) <= Sum(list, p)
    ensures Sum(list, Kept(p, cutoff)) == Sum(list, p)
       <==> forall b | b in list && p(b.rule, b.day) && b.count > 0 :: b.day >= cutoff && b.rule != ""
  {
    if list != [] {
      KeptIsAll(list[..|list| - 1], cutoff, p);
      assert list == list[..|list| - 1] + [list[|list| - 1]];
    }
  }

  // So many suppressions may be lost without another rate: those past the
  // number of fires, or what the whole percentage leaves over.
  predicate HasRoom(fires: nat, suppressed: nat, lost: nat) {
    fires == 0 || if suppressed >= fires then lost <= suppressed - fires else 100 * lost <= 100 * suppressed % fires
  }

  lemma SameRate(fires: nat, suppressed: nat, lost: nat)
    requires lost <= suppressed
    ensures Rate(fires, suppressed - lost) == Rate(fires, suppressed) <==> HasRoom(fires, suppressed, lost)
  {
    if fires > 0 {
      Percent(fires, suppressed);
      Percent(fires, suppressed - lost);
      SameQuotient(100 * suppressed, 100 * lost, fires);
    }
  }

  lemma Percent(fires: nat, n: nat)
    requires fires > 0
    ensures 100 * n / fires >= 100 <==> n >= fires
  {
    if n >= fires {
      assert 100 * n >= 100 * fires;
    } else {
      assert 100 * n < 100 * fires;
    }
  }

  // Taking no more than the remainder leaves the quotient.
  lemma SameQuotient(n: nat, less: nat, d: nat)
    requires d > 0 && less <= n
    ensures (n - less) / d == n / d <==> less <= n % d
  {
    var q := n / d;
    assert n == q * d + n % d;
    if less <= n % d {
      QuotientIs(n - less, d, q);
    }
  }

  lemma QuotientIs(n: nat, d: nat, q: nat)
    requires d > 0 && q * d <= n < q * d + d
    ensures n / d == q
  {
    var p := n / d;
    assert p * d <= n < p * d + d;
    assert (p - q) * d == p * d - q * d;
    SmallMultiple(p - q, d);
  }

  lemma SmallMultiple(x: int, d: nat)
    requires x * d < d && x * d + d > 0
    ensures x == 0
  {
    if x > 0 {
      AtLeastOnce(x, d);
    } else if x < 0 {
      assert -x * d == -(x * d);
      AtLeastOnce(-x, d);
    }
  }

  lemma AtLeastOnce(x: int, d: nat)
    requires x > 0
    ensures x * d >= d
  {
    assert x * d == (x - 1) * d + d;
    assert (x - 1) * d >= 0;
  }

  // Save at `now`, reload, and report at `later`, against the report without
  // the reload: a rule's thirty-day fires are the same, its suppressions less
  // the rows lost from the window, its rate the same if there is room for
  // these, and its totals if nothing of it is lost for good.
  lemma SaveLoadKeepsReport(fires: seq<FireDay>, list: seq<Suppression>, now: int, loaded: seq<FireDay>, later: int,
      rule: string)
    requires forall r, day :: Sum(loaded, OfBucket(r, day)) == FileCount(Save(fires, DayOf(now)), r, day)
    requires rule != "" && later >= now
    ensures var before := StatsOf(fires, list, later, rule);
            var after := StatsOf(loaded, Reloaded(list, now), later, rule);
            var lost := LostIn(list, now, rule, Cutoff(later));
            && after.fires30d == before.fires30d
            && after.suppressions30d == before.suppressions30d - lost
            && (after.fpRate30d == before.fpRate30d <==> HasRoom(before.fires30d, before.suppressions30d, lost))
            && (after.firesAllTime == before.firesAllTime
               <==> forall b | b in fires && b.rule == rule && b.count > 0 :: b.day >= DayOf(now) - RETENTION_DAYS)
            && after.suppressionsAllTime == before.suppressionsAllTime - LostInAll(list, now, rule)
  {
    var since := Cutoff(later);
    FiresSurvive(fires, now, loaded, later, rule);
    SuppressionsSurvive(list, now, rule, since);
    var fires30d := Sum(fires, OfRuleSince(rule, DayOf(since)));
    SameRate(fires30d, CountSince(list, rule, since), LostIn(list, now, rule, since));
  }

  lemma FiresSurvive(fires: seq<FireDay>, now: int, loaded: seq<FireDay>, later: int, rule: string)
    requires forall r, day :: Sum(loaded, OfBucket(r, day)) == FileCount(Save(fires, DayOf(now)), r, day)
    requires rule != "" && later >= now
    ensures Sum(loaded, OfRuleSince(rule, DayOf(Cutoff(later)))) == Sum(fires, OfRuleSince(rule, DayOf(Cutoff(later))))
    ensures Sum(loaded, OfRule(rule)) == Sum(fires, OfRule(rule))
       <==> forall b | b in fires && b.rule == rule && b.count > 0 :: b.day >= DayOf(now) - RETENTION_DAYS
  {
    var cutoff := DayOf(now) - RETENTION_DAYS;
    SaveLoadKeepsTotals(fires, DayOf(now), loaded, OfRule(rule));
    SaveLoadKeepsTotals(fires, DayOf(now), loaded, OfRuleSince(rule, DayOf(Cutoff(later))));
    DaysAscend(now, later);
    KeptIsAll(fires, cutoff, OfRuleSince(rule, DayOf(Cutoff(later))));
    KeptIsAll(fires, cutoff, OfRule(rule));
  }

  lemma DaysAscend(now: int, later: int)
    requires later >= now
    ensures DayOf(Cutoff(later)) == DayOf(later) - 30 >= DayOf(now) - 30
  {
  }

  class RuleQualityTracker {
    var fireDays: seq<FireDay>
    var suppressions: seq<Suppression>
    var dirty: bool
    var disk: Option<Disk>

    // Looks at today's tail only.
    method RecordFire(rule: string, today: int)
      modifies this
      ensures fireDays == Fire(old(fireDays), rule, today) && suppressions == old(suppressions) && disk == old(disk)
      ensures dirty == (old(dirty) || rule != "")
    {
      if rule == "" {
        return;
      }
      dirty := true;
      var i := |fireDays| - 1;
      while i >= 0 && fireDays[i].day == today
        invariant -1 <= i < |fireDays|
        invariant FindToday(fireDays, |fireDays|, rule, today) == FindToday(fireDays, i + 1, rule, today)
      {
        if fireDays[i].rule == rule {
          fireDays := fireDays[i := fireDays[i].(count := fireDays[i].count + 1)];
          return;
        }
        i := i - 1;
      }
      fireDays := fireDays + [FireDay(rule, today, 1)];
    }

    method RecordSuppression(rule: string, line: string, time: int)
      modifies this
      ensures fireDays == old(fireDays) && disk == old(disk)
      ensures suppressions == if rule == "" then old(suppressions)
              else old(suppressions) + [Suppression(rule, line, time)]
      ensures dirty == (old(dirty) || rule != "")
    {
      if rule != "" {
        suppressions := suppressions + [Suppression(rule, line, time)];
        dirty := true;
      }
    }

    // One row for every rule that fired or was suppressed, highest rate first.
    method Report(now: int) returns (rows: seq<Row>)
      ensures Ranked(rows)
      ensures forall rule ::
        (exists k :: 0 <= k < |rows| && rows[k].rule == rule) <==> rule in RulesOf(fireDays, suppressions)
      ensures forall k | 0 <= k < |rows| :: rows[k].stats == StatsOf(fireDays, suppressions, now, rows[k].rule)
    {
      var counted := TallyFires(fireDays, now);
      counted := TallySuppressions(counted, fireDays, suppressions, now);
      var rated := map rule | rule in counted ::
        counted[rule].(fpRate30d := Rate(counted[rule].fires30d, counted[rule].suppressions30d));
      assert rated.Keys == counted.Keys;
      rows := SortRows(rated);
    }

    // Writes what is in retention; memory keeps everything. `commits`: the
    // file could be written, made private and renamed into place.
    method Save(now: int, commits: bool)
      modifies `dirty, `disk
      ensures old(dirty) && commits ==>
                disk == Some(Disk(FireDays.Save(fireDays, DayOf(now)), SavedSuppressions(suppressions, now))) && !dirty
      ensures !(old(dirty) && commits) ==> disk == old(disk) && dirty == old(dirty)
    {
      if !dirty {
        return;
      }
      var from := DayOf(now) - RETENTION_DAYS;
      var days: seq<(string, int, int)> := [];
      for i := 0 to |fireDays|
        invariant days == SavedDays(fireDays[..i], from)
        invariant dirty == old(dirty) && disk == old(disk)
      {
        assert fireDays[..i + 1][..i] == fireDays[..i];
        var b := fireDays[i];
        if b.day < from { continue; }
        days := days + [(b.rule, b.day, b.count as int)];
      }
      assert fireDays[..|fireDays|] == fireDays;
      if !commits {
        return;
      }
      disk := Some(Disk(File(days, []), SavedSuppressions(suppressions, now)));
      dirty := false;
    }

    // Memory becomes what is on disk: buckets in day order, one a rule a day,
    // each holding what the file says of it.
    method Reload()
      modifies `fireDays, `suppressions
      ensures Sorted(fireDays) && OneEach(fireDays)
      ensures forall rule, day :: Sum(fireDays, OfBucket(rule, day))
                               == if disk.Some? then FileCount(disk.value.file, rule, day) else 0
      ensures suppressions == if disk.Some? then Named(disk.value.suppressions) else []
    {
      fireDays, suppressions := [], [];
      if disk == None {
        return;
      }
      fireDays := Load(disk.value.file);
      var rows := disk.value.suppressions;
      var kept: seq<Suppression> := [];
      for i := 0 to |rows|
        invariant kept == Named(rows[..i])
      {
        assert rows[..i + 1][..i] == rows[..i];
        if rows[i].rule != "" {
          kept := kept + [rows[i]];
        }
      }
      assert rows[..|rows|] == rows;
      suppressions := kept;
    }
  }
}
