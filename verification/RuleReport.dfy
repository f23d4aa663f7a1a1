/** The report of the rule-quality tracker in numbers, and what a save writes,
    row by row. Times are in milliseconds: a day has 86,400,000. */
module RuleReport {
  import opened FireDays
  import opened Options
  import opened RuleQuality
  import opened Subsequences
  import opened Suppressions

  // ------------------------------------------------------------- the numbers

  lemma NothingYet(now: int, rule: string)
    ensures StatsOf([], [], now, rule) == RuleStats(0, 0, 0, 0, None, None, -1)
  {
  }

  // The later of a time seen, if any, and another.
  predicate IsLatest(after: Option<int>, before: Option<int>, time: int) {
    match before
    case None => after == Some(time)
    case Some(t) => after == Some(if time > t then time else t)
  }

  // One more bucket adds its count to its rule's fires, to those of thirty days
  // if its day is among them, and may be its last fire.
  lemma FireTells(fires: seq<FireDay>, b: FireDay, list: seq<Suppression>, now: int, rule: string)
    ensures var was, now' := StatsOf(fires, list, now, rule), StatsOf(fires + [b], list, now, rule);
            && now'.firesAllTime == was.firesAllTime + (if b.rule == rule then b.count else 0)
            && now'.fires30d
               == was.fires30d + (if b.rule == rule && b.day >= now / 86_400_000 - 30 then b.count else 0)
            && (if b.rule == rule then IsLatest(now'.lastFire, was.lastFire, b.day) else now'.lastFire == was.lastFire)
            && now'.suppressionsAllTime == was.suppressionsAllTime && now'.suppressions30d == was.suppressions30d
            && now'.lastSuppression == was.lastSuppression
  {
    SumAppend(fires, b, OfRule(rule));
    SumAppend(fires, b, OfRuleSince(rule, DayOf(Cutoff(now))));
    assert (fires + [b])[..|fires|] == fires;
  }

  // One more suppression counts for its rule, for the last thirty days if it is
  // no older, and may be its last.
  lemma SuppressionTells(fires: seq<FireDay>, list: seq<Suppression>, r: Suppression, now: int, rule: string)
    ensures var was, now' := StatsOf(fires, list, now, rule), StatsOf(fires, list + [r], now, rule);
            && now'.suppressionsAllTime == was.suppressionsAllTime + (if r.rule == rule then 1 else 0)
            && now'.suppressions30d
               == was.suppressions30d + (if r.rule == rule && r.time >= now - 2_592_000_000 then 1 else 0)
            && (if r.rule == rule then IsLatest(now'.lastSuppression, was.lastSuppression, r.time)
                else now'.lastSuppression == was.lastSuppression)
            && now'.firesAllTime == was.firesAllTime && now'.fires30d == was.fires30d && now'.lastFire == was.lastFire
  {
    assert (list + [r])[..|list|] == list;
  }

  // The rate: none without fires, else suppressions per hundred fires, whole,
  // at most a hundred.
  lemma RateTells(fires: seq<FireDay>, list: seq<Suppression>, now: int, rule: string)
    ensures var s := StatsOf(fires, list, now, rule);
            if s.fires30d == 0 then s.fpRate30d == -1
            else if s.suppressions30d >= s.fires30d then s.fpRate30d == 100
            else 0 <= s.fpRate30d < 100
                 && s.fpRate30d * s.fires30d <= 100 * s.suppressions30d < s.fpRate30d * s.fires30d + s.fires30d
  {
    var s := StatsOf(fires, list, now, rule);
    if s.fires30d > 0 {
      Percent(s.fires30d, s.suppressions30d);
      DivisionIs(100 * s.suppressions30d, s.fires30d);
    }
  }

  lemma DivisionIs(n: nat, d: nat)
    requires d > 0
    ensures n / d * d <= n < n / d * d + d
  {
  }

  // The rules a report has a row for, and the order of the rows.
  lemma ReportTells(fires: seq<FireDay>, list: seq<Suppression>, rows: seq<Row>)
    requires Ranked(rows)
    ensures forall rule :: rule in RulesOf(fires, list)
              <==> (exists k :: 0 <= k < |fires| && fires[k].rule == rule)
                   || exists k :: 0 <= k < |list| && list[k].rule == rule
    ensures forall i, j | 0 <= i < j < |rows| ::
              rows[i].rule != rows[j].rule
              && (rows[i].stats.fpRate30d > rows[j].stats.fpRate30d
                  || (rows[i].stats.fpRate30d == rows[j].stats.fpRate30d
                      && rows[i].stats.fires30d >= rows[j].stats.fires30d))
  {
  }

  // --------------------------------------------------------------- what is saved

  // Rows no older than `from`.
  function RowsSince(list: seq<Suppression>, from: int): nat {
    if list == [] then 0
    else RowsSince(list[..|list| - 1], from) + (if list[|list| - 1].time >= from then 1 else 0)
  }

  lemma {:induction false} InTimeTells(list: seq<Suppression>, from: int, r: Suppression)
    ensures |InTime(list, from)| == RowsSince(list, from) && InOrder(InTime(list, from), list)
    ensures multiset(InTime(list, from))[r] == (if r.time >= from then multiset(list)[r] else 0)
  {
    if list != [] {
      var rest, last := list[..|list| - 1], list[|list| - 1];
      assert list == rest + [last];
      InTimeTells(rest, from, r);
      InOrderGrows(InTime(rest, from), rest, last, last.time >= from);
    }
  }

  // The row as it is written: its time is cut to the second.
  predicate Written(row: Suppression, saved: Suppression) {
    saved.rule == row.rule && saved.line == row.line && saved.time % 1000 == 0 && 0 <= row.time - saved.time < 1000
  }

  // What is saved of the suppressions: of the rows no older than ninety days
  // the newest 50,000, in order. `first` is where these begin.
  lemma SavedTells(list: seq<Suppression>, now: int, r: Suppression) returns (first: nat, kept: seq<Suppression>)
    ensures var from := now - 7_776_000_000;
            && first <= |list| && RowsSince(list[first..], from) <= 50_000
            && (forall k | 0 <= k < first :: RowsSince(list[k..], from) > 50_000)
            && InOrder(kept, list[first..])
            && multiset(kept)[r] == (if r.time >= from then multiset(list[first..])[r] else 0)
            && |SavedSuppressions(list, now)| == |kept|
            && forall k | 0 <= k < |kept| :: Written(kept[k], SavedSuppressions(list, now)[k])
  {
    var from := Oldest(now);
    first := FirstKept(list, from);
    kept := InTime(list[first..], from);
    LastOfIsFrom(list, from);
    InTimeTells(list[first..], from, r);
    forall k | 0 <= k < first ensures RowsSince(list[k..], from) > 50_000 {
      ClampedByCount(list, from, k);
      InTimeTells(list[k..], from, r);
    }
    FirstFits(list, from);
  }

  lemma {:induction false} FirstFits(list: seq<Suppression>, from: int)
    ensures |InTime(list[FirstKept(list, from)..], from)| <= MAX_RECORDS
  {
    if |InTime(list, from)| > MAX_RECORDS {
      FirstFits(list[1..], from);
      assert list[1..][FirstKept(list[1..], from)..] == list[FirstKept(list, from)..];
    } else {
      assert list[0..] == list;
    }
  }

  // What is saved of the fires: the buckets of the last ninety days, in order.
  lemma {:induction false} DaysTell(fires: seq<FireDay>, today: int, b: FireDay) returns (kept: seq<FireDay>)
    ensures var days := FireDays.Save(fires, today).days;
            && InOrder(kept, fires) && multiset(kept)[b] == (if b.day >= today - 90 then multiset(fires)[b] else 0)
            && |days| == |kept| && forall k | 0 <= k < |kept| :: days[k] == (kept[k].rule, kept[k].day, kept[k].count)
    ensures FireDays.Save(fires, today).fires == []
  {
    kept := [];
    if fires != [] {
      var rest, last := fires[..|fires| - 1], fires[|fires| - 1];
      assert fires == rest + [last];
      var before := DaysTell(rest, today, b);
      InOrderGrows(before, rest, last, last.day >= today - 90);
      kept := if last.day >= today - 90 then before + [last] else before;
    }
  }

  // What a file says of a rule's day: the counts of its entries that name the
  // rule and are positive, and one for each record of the first format.
  lemma FileTells(f: File, entry: (string, int, int), old_: Old, rule: string, day: int)
    ensures FileCount(File([], []), rule, day) == 0
    ensures FileCount(File(f.days + [entry], f.fires), rule, day)
         == FileCount(f, rule, day) + (if entry.0 == rule != "" && entry.1 == day && entry.2 > 0 then entry.2 else 0)
    ensures FileCount(File(f.days, f.fires + [old_]), rule, day)
         == FileCount(f, rule, day) + (if old_.rule == rule != "" && old_.day == day then 1 else 0)
  {
    assert (f.days + [entry])[..|f.days|] == f.days && (f.fires + [old_])[..|f.fires|] == f.fires;
  }

  // A reload takes the suppressions that name a rule.
  lemma {:induction false} NamedTells(list: seq<Suppression>, r: Suppression)
    ensures InOrder(Named(list), list) && multiset(Named(list))[r] == (if r.rule == "" then 0 else multiset(list)[r])
  {
    if list != [] {
      var rest, last := list[..|list| - 1], list[|list| - 1];
      assert list == rest + [last];
      NamedTells(rest, r);
      InOrderGrows(Named(rest), rest, last, last.rule != "");
    }
  }
}
