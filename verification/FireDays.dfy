/** Per-day fire buckets of the rule-quality tracker: one count a rule a day,
    kept in day order so that recording only has to look at today's tail. */
module FireDays {

  datatype FireDay = FireDay(rule: string, day: int, count: nat)

  const RETENTION_DAYS := 90

  // ------------------------------------------------------------------- recording

  // The scan over today's tail: the bucket of `rule`, or none.
  function FindToday(list: seq<FireDay>, n: nat, rule: string, today: int): int
    requires n <= |list|
    ensures -1 <= FindToday(list, n, rule, today) < n
  {
    if n == 0 || list[n - 1].day != today then -1
    else if list[n - 1].rule == rule then n - 1
    else FindToday(list, n - 1, rule, today)
  }

  function Fire(list: seq<FireDay>, rule: string, today: int): seq<FireDay> {
    if rule == "" then list
    else
      var k := FindToday(list, |list|, rule, today);
      if k >= 0 then list[k := list[k].(count := list[k].count + 1)] else list + [FireDay(rule, today, 1)]
  }

  ghost predicate Sorted(list: seq<FireDay>) {
    forall i, j | 0 <= i < j < |list| :: list[i].day <= list[j].day
  }

  ghost predicate OneEach(list: seq<FireDay>) {
    forall i, j | 0 <= i < j < |list| :: list[i].rule != list[j].rule || list[i].day != list[j].day
  }

  // Sum of the counts of the buckets that `p` picks by rule and day.
  ghost function Sum(list: seq<FireDay>, p: (string, int) -> bool): nat {
    if list == [] then 0
    else Sum(list[..|list| - 1], p) + (var b := list[|list| - 1]; if p(b.rule, b.day) then b.count else 0)
  }

  ghost function OfRule(rule: string): (string, int) -> bool {
    (r, d) => r == rule
  }

  ghost function OfRuleSince(rule: string, from: int): (string, int) -> bool {
    (r, d) => r == rule && d >= from
  }

  ghost function OfBucket(rule: string, day: int): (string, int) -> bool {
    (r, d) => r == rule && d == day
  }

  lemma {:induction false} SumUpdate(list: seq<FireDay>, k: nat, p: (string, int) -> bool)
    requires k < |list|
    ensures var b := list[k];
            Sum(list[k := b.(count := b.count + 1)], p) == Sum(list, p) + (if p(b.rule, b.day) then 1 else 0)
  {
    var last := |list| - 1;
    var after := list[k := list[k].(count := list[k].count + 1)];
    if k == last {
      assert after[..last] == list[..last];
    } else {
      assert after[..last] == list[..last][k := list[k].(count := list[k].count + 1)];
      SumUpdate(list[..last], k, p);
    }
  }

  lemma SumAppend(list: seq<FireDay>, b: FireDay, p: (string, int) -> bool)
    ensures Sum(list + [b], p) == Sum(list, p) + (if p(b.rule, b.day) then b.count else 0)
  {
    assert (list + [b])[..|list|] == list;
  }

  lemma {:induction false} FoundToday(list: seq<FireDay>, n: nat, rule: string, today: int)
    requires n <= |list|
    ensures var k := FindToday(list, n, rule, today);
            k >= 0 ==> list[k].rule == rule && list[k].day == today
  {
    if n > 0 && list[n - 1].day == today && list[n - 1].rule != rule {
      FoundToday(list, n - 1, rule, today);
    }
  }

  // A recorded fire adds exactly one wherever its rule and day are counted,
  // whatever the clock did.
  lemma FireAddsOne(list: seq<FireDay>, rule: string, today: int, p: (string, int) -> bool)
    ensures Sum(Fire(list, rule, today), p) == Sum(list, p) + (if rule != "" && p(rule, today) then 1 else 0)
  {
    FoundToday(list, |list|, rule, today);
    var k := FindToday(list, |list|, rule, today);
    if rule != "" {
      if k >= 0 {
        SumUpdate(list, k, p);
      } else {
        SumAppend(list, FireDay(rule, today, 1), p);
      }
    }
  }

  lemma {:induction false} NotFoundToday(list: seq<FireDay>, n: nat, rule: string, today: int, k: nat)
    requires k < n <= |list| && FindToday(list, n, rule, today) == -1
    requires forall i, j | 0 <= i < j < n :: list[i].day <= list[j].day
    requires list[n - 1].day <= today
    ensures list[k].rule != rule || list[k].day != today
  {
    if list[n - 1].day == today && k < n - 1 {
      NotFoundToday(list, n - 1, rule, today, k);
    }
  }

  ghost predicate ClockIsPast(list: seq<FireDay>, today: int) {
    list == [] || list[|list| - 1].day <= today
  }

  // Day order survives a fire exactly when the clock is not behind the last
  // bucket; then there is still one bucket a rule a day.
  lemma FireKeepsOrder(list: seq<FireDay>, rule: string, today: int)
    requires Sorted(list) && OneEach(list) && rule != ""
    ensures Sorted(Fire(list, rule, today)) <==> ClockIsPast(list, today)
    ensures ClockIsPast(list, today) ==> OneEach(Fire(list, rule, today))
  {
    var k := FindToday(list, |list|, rule, today);
    FoundToday(list, |list|, rule, today);
    var after := Fire(list, rule, today);
    if k >= 0 {
      assert list[k].day <= list[|list| - 1].day;
      assert ClockIsPast(list, today);
    } else if ClockIsPast(list, today) {
      forall i | 0 <= i < |list| ensures list[i].rule != rule || list[i].day != today {
        NotFoundToday(list, |list|, rule, today, i);
      }
    } else {
      assert after[|list| - 1].day > after[|list|].day;
    }
  }

  // ------------------------------------------------------------- all recordings

  datatype Recorded = Recorded(rule: string, today: int)

  function FireAll(list: seq<FireDay>, fires: seq<Recorded>): seq<FireDay>
    decreases |fires|
  {
    if fires == [] then list else FireAll(Fire(list, fires[0].rule, fires[0].today), fires[1..])
  }

  function CountFires(fires: seq<Recorded>, p: (string, int) -> bool): nat {
    if fires == [] then 0
    else (if fires[0].rule != "" && p(fires[0].rule, fires[0].today) then 1 else 0) + CountFires(fires[1..], p)
  }

  // Over any recordings: every total, per rule, per window, per day, is the
  // number of fires recorded there.
  lemma {:induction false} TotalsAreFires(list: seq<FireDay>, fires: seq<Recorded>, p: (string, int) -> bool)
    ensures Sum(FireAll(list, fires), p) == Sum(list, p) + CountFires(fires, p)
    decreases |fires|
  {
    if fires != [] {
      FireAddsOne(list, fires[0].rule, fires[0].today, p);
      TotalsAreFires(Fire(list, fires[0].rule, fires[0].today), fires[1..], p);
    }
  }

  // The fires that name a rule come with a clock that goes on from the list.
  ghost predicate ClockGoesOn(list: seq<FireDay>, fires: seq<Recorded>) {
    && (forall k | 0 <= k < |fires| && fires[k].rule != "" :: ClockIsPast(list, fires[k].today))
    && (forall j, k | 0 <= j < k < |fires| && fires[j].rule != "" && fires[k].rule != "" ::
         fires[j].today <= fires[k].today)
  }

  // A fire leaves the days of the buckets as they are.
  lemma FireKeepsDays(list: seq<FireDay>, rule: string, today: int)
    ensures |list| <= |Fire(list, rule, today)|
    ensures forall k | 0 <= k < |list| :: Fire(list, rule, today)[k].day == list[k].day
  {
  }

  lemma {:induction false} DisorderStays(list: seq<FireDay>, fires: seq<Recorded>)
    requires !Sorted(list)
    ensures !Sorted(FireAll(list, fires))
    decreases |fires|
  {
    if fires != [] {
      var i, j :| 0 <= i < j < |list| && list[i].day > list[j].day;
      var next := Fire(list, fires[0].rule, fires[0].today);
      FireKeepsDays(list, fires[0].rule, fires[0].today);
      assert next[i].day > next[j].day;
      DisorderStays(next, fires[1..]);
    }
  }

  // The last bucket after a fire is of the day of the fire.
  lemma FireIsLast(list: seq<FireDay>, rule: string, today: int)
    requires Sorted(list) && rule != "" && ClockIsPast(list, today)
    ensures var next := Fire(list, rule, today); next != [] && next[|next| - 1].day == today
  {
    FoundToday(list, |list|, rule, today);
  }

  lemma ClockAfterFire(list: seq<FireDay>, next: seq<FireDay>, fires: seq<Recorded>)
    requires fires != [] && fires[0].rule != "" && ClockIsPast(list, fires[0].today)
    requires next != [] && next[|next| - 1].day == fires[0].today
    ensures ClockGoesOn(list, fires) <==> ClockGoesOn(next, fires[1..])
  {
    var rest := fires[1..];
    assert forall k | 0 <= k < |rest| :: rest[k] == fires[k + 1];
    assert forall k | 1 <= k < |fires| :: fires[k] == rest[k - 1];
  }

  lemma ClockAfterNone(list: seq<FireDay>, fires: seq<Recorded>)
    requires fires != [] && fires[0].rule == ""
    ensures ClockGoesOn(list, fires) <==> ClockGoesOn(list, fires[1..])
  {
    var rest := fires[1..];
    assert forall k | 0 <= k < |rest| :: rest[k] == fires[k + 1];
    assert forall k | 1 <= k < |fires| :: fires[k] == rest[k - 1];
  }

  // Over any recordings the buckets stay in day order if and only if the
  // clock goes on; then there is still one bucket a rule a day.
  lemma {:induction false} OrderIsKept(list: seq<FireDay>, fires: seq<Recorded>)
    requires Sorted(list) && OneEach(list)
    ensures Sorted(FireAll(list, fires)) <==> ClockGoesOn(list, fires)
    ensures ClockGoesOn(list, fires) ==> OneEach(FireAll(list, fires))
    decreases |fires|
  {
    if fires != [] {
      var f, rest := fires[0], fires[1..];
      var next := Fire(list, f.rule, f.today);
      if f.rule == "" {
        ClockAfterNone(list, fires);
        OrderIsKept(list, rest);
      } else {
        FireKeepsOrder(list, f.rule, f.today);
        if ClockIsPast(list, f.today) {
          FireIsLast(list, f.rule, f.today);
          ClockAfterFire(list, next, fires);
          OrderIsKept(next, rest);
        } else {
          DisorderStays(next, rest);
        }
      }
    }
  }

  // ---------------------------------------------------------------- save and load

  // One per-fire record of the first file format.
  datatype Old = Old(rule: string, day: int)

  // The two arrays of the file; `days` may come from anywhere.
  datatype File = File(days: seq<(string, int, int)>, fires: seq<Old>)

  function Save(list: seq<FireDay>, now: int): File {
    File(SavedDays(list, now - RETENTION_DAYS), [])
  }

  function SavedDays(list: seq<FireDay>, cutoff: int): seq<(string, int, int)> {
    if list == [] then []
    else
      var b := list[|list| - 1];
      SavedDays(list[..|list| - 1], cutoff) + (if b.day < cutoff then [] else [(b.rule, b.day, b.count as int)])
  }

  // What the file says of one bucket: its day entries and its old records.
  function DaysCount(days: seq<(string, int, int)>, rule: string, day: int): nat {
    if days == [] then 0
    else
      var (r, d, n) := days[|days| - 1];
      DaysCount(days[..|days| - 1], rule, day) + (if r != "" && r == rule && d == day && n > 0 then n else 0)
  }

  function OldCount(fires: seq<Old>, rule: string, day: int): nat {
    if fires == [] then 0
    else
      var f := fires[|fires| - 1];
      OldCount(fires[..|fires| - 1], rule, day) + (if f.rule != "" && f.rule == rule && f.day == day then 1 else 0)
  }

  function FileCount(f: File, rule: string, day: int): nat {
    DaysCount(f.days, rule, day) + OldCount(f.fires, rule, day)
  }

  function InMap(counts: map<(string, int), nat>, rule: string, day: int): nat {
    if (rule, day) in counts then counts[(rule, day)] else 0
  }

  ghost predicate Positive(counts: map<(string, int), nat>) {
    forall key | key in counts :: counts[key] > 0 && key.0 != ""
  }

  method CountDays(days: seq<(string, int, int)>) returns (counts: map<(string, int), nat>)
    ensures forall rule, day :: InMap(counts, rule, day) == DaysCount(days, rule, day)
    ensures Positive(counts)
  {
    counts := map[];
    var i := 0;
    while i < |days|
      invariant 0 <= i <= |days|
      invariant forall rule, day :: InMap(counts, rule, day) == DaysCount(days[..i], rule, day)
      invariant Positive(counts)
    {
      assert days[..i + 1][..i] == days[..i];
      var (r, d, n) := days[i];
      if r != "" && n > 0 {
        counts := counts[(r, d) := InMap(counts, r, d) + n];
      }
      i := i + 1;
    }
    assert days[..i] == days;
  }

  // Counts the file's entries into one bucket a rule a day.
  method CountFile(f: File) returns (counts: map<(string, int), nat>)
    ensures forall rule, day :: InMap(counts, rule, day) == FileCount(f, rule, day)
    ensures Positive(counts)
  {
    counts := CountDays(f.days);
    var i := 0;
    while i < |f.fires|
      invariant 0 <= i <= |f.fires|
      invariant forall rule, day ::
              InMap(counts, rule, day) == DaysCount(f.days, rule, day) + OldCount(f.fires[..i], rule, day)
      invariant Positive(counts)
    {
      assert f.fires[..i + 1][..i] == f.fires[..i];
      var fire := f.fires[i];
      if fire.rule != "" {
        counts := counts[(fire.rule, fire.day) := InMap(counts, fire.rule, fire.day) + 1];
      }
      i := i + 1;
    }
    assert f.fires[..i] == f.fires;
  }

  // One bucket joins a list in day order. Buckets of one day keep any order.
  method Insert(list: seq<FireDay>, b: FireDay) returns (out: seq<FireDay>)
    requires Sorted(list)
    ensures Sorted(out)
    ensures exists k: nat :: k <= |list| && out == Inserted(list, k, b)
  {
    var k := |list|;
    while k > 0 && list[k - 1].day > b.day
      invariant 0 <= k <= |list|
      invariant forall j | k <= j < |list| :: list[j].day > b.day
    {
      k := k - 1;
    }
    out := Inserted(list, k, b);
  }

  // The buckets of a map, in the order a hash gives them, sorted by day.
  ghost predicate Holds(list: seq<FireDay>, counts: map<(string, int), nat>, keys: set<(string, int)>) {
    && (forall k | 0 <= k < |list| :: (list[k].rule, list[k].day) in keys
          && (list[k].rule, list[k].day) in counts && list[k].count == counts[(list[k].rule, list[k].day)])
    && (forall key | key in keys :: exists k :: 0 <= k < |list| && (list[k].rule, list[k].day) == key)
  }

  function Inserted<T>(list: seq<T>, k: nat, b: T): (out: seq<T>)
    requires k <= |list|
    ensures |out| == |list| + 1 && out[k] == b
    ensures forall j | 0 <= j < k :: out[j] == list[j]
    ensures forall j | k <= j < |list| :: out[j + 1] == list[j]
    ensures forall j | k < j < |out| :: out[j] == list[j - 1]
  {
    list[..k] + [b] + list[k..]
  }

  lemma InsertKeepsOneEach(list: seq<FireDay>, k: nat, b: FireDay)
    requires k <= |list| && OneEach(list)
    requires forall j | 0 <= j < |list| :: (list[j].rule, list[j].day) != (b.rule, b.day)
    ensures OneEach(Inserted(list, k, b))
  {
  }

  lemma InsertKeepsHolds(list: seq<FireDay>, k: nat, b: FireDay, counts: map<(string, int), nat>,
      done: set<(string, int)>)
    requires k <= |list| && Holds(list, counts, done)
    requires (b.rule, b.day) in counts && counts[(b.rule, b.day)] == b.count
    ensures Holds(Inserted(list, k, b), counts, done + {(b.rule, b.day)})
  {
    var out := Inserted(list, k, b);
    assert forall m | 0 <= m < |out| :: out[m] == if m < k then list[m] else if m == k then b else list[m - 1];
    forall key | key in done + {(b.rule, b.day)}
      ensures exists j :: 0 <= j < |out| && (out[j].rule, out[j].day) == key
    {
      InsertedHolds(list, k, b, done, key);
    }
  }

  lemma InsertedHolds(list: seq<FireDay>, k: nat, b: FireDay, done: set<(string, int)>, key: (string, int))
    requires k <= |list| && key in done + {(b.rule, b.day)}
    requires key in done ==> exists j :: 0 <= j < |list| && (list[j].rule, list[j].day) == key
    ensures var out := Inserted(list, k, b); exists j :: 0 <= j < |out| && (out[j].rule, out[j].day) == key
  {
    var out := Inserted(list, k, b);
    if key == (b.rule, b.day) {
      assert (out[k].rule, out[k].day) == key;
    } else {
      var j :| 0 <= j < |list| && (list[j].rule, list[j].day) == key;
      assert out[if j < k then j else j + 1] == list[j];
    }
  }

  lemma {:induction false} BucketSum(list: seq<FireDay>, rule: string, day: int)
    requires OneEach(list)
    ensures (forall k | 0 <= k < |list| :: list[k].rule != rule || list[k].day != day)
            ==> Sum(list, OfBucket(rule, day)) == 0
    ensures forall k | 0 <= k < |list| && list[k].rule == rule && list[k].day == day ::
            Sum(list, OfBucket(rule, day)) == list[k].count
  {
    if list != [] {
      BucketSum(list[..|list| - 1], rule, day);
    }
  }

  lemma HeldCount(list: seq<FireDay>, counts: map<(string, int), nat>, rule: string, day: int)
    requires OneEach(list) && Holds(list, counts, counts.Keys)
    ensures Sum(list, OfBucket(rule, day)) == InMap(counts, rule, day)
  {
    BucketSum(list, rule, day);
    if (rule, day) in counts {
      var k :| 0 <= k < |list| && (list[k].rule, list[k].day) == (rule, day);
    } else {
      forall k | 0 <= k < |list| ensures list[k].rule != rule || list[k].day != day {
        assert (list[k].rule, list[k].day) in counts.Keys;
      }
    }
  }

  method Load(f: File) returns (list: seq<FireDay>)
    ensures Sorted(list) && OneEach(list)
    ensures forall rule, day :: Sum(list, OfBucket(rule, day)) == FileCount(f, rule, day)
  {
    var counts := CountFile(f);
    list := [];
    var keys := counts.Keys;
    while keys != {}
      invariant keys <= counts.Keys
      invariant Sorted(list) && OneEach(list) && Holds(list, counts, counts.Keys - keys)
      decreases |keys|
    {
      var key :| key in keys;
      ghost var before := list;
      list := Insert(list, FireDay(key.0, key.1, counts[key]));
      ghost var b := FireDay(key.0, key.1, counts[key]);
      ghost var k: nat :| k <= |before| && list == Inserted(before, k, b);
      InsertKeepsOneEach(before, k, b);
      InsertKeepsHolds(before, k, b, counts, counts.Keys - keys);
      assert counts.Keys - (keys - {key}) == counts.Keys - keys + {key};
      keys := keys - {key};
    }
    assert counts.Keys - {} == counts.Keys;
    forall rule, day ensures Sum(list, OfBucket(rule, day)) == FileCount(f, rule, day) {
      HeldCount(list, counts, rule, day);
    }
  }

  // -------------------------------------------------------------------- round trip

  ghost function Kept(p: (string, int) -> bool, cutoff: int): (string, int) -> bool {
    (r, d) => p(r, d) && d >= cutoff && r != ""
  }

  lemma {:induction false} SavedCount(list: seq<FireDay>, cutoff: int, rule: string, day: int)
    ensures DaysCount(SavedDays(list, cutoff), rule, day) == Sum(list, Kept(OfBucket(rule, day), cutoff))
  {
    if list != [] {
      var rest := list[..|list| - 1];
      var b := list[|list| - 1];
      SavedCount(rest, cutoff, rule, day);
      if b.day >= cutoff {
        var days := SavedDays(list, cutoff);
        assert days[..|days| - 1] == SavedDays(rest, cutoff);
      } else {
        assert SavedDays(list, cutoff) == SavedDays(rest, cutoff);
      }
    }
  }

  function Without(list: seq<FireDay>, rule: string, day: int): seq<FireDay> {
    if list == [] then []
    else
      var b := list[|list| - 1];
      Without(list[..|list| - 1], rule, day) + (if b.rule == rule && b.day == day then [] else [b])
  }

  lemma {:induction false} SumWithout(list: seq<FireDay>, rule: string, day: int, p: (string, int) -> bool)
    ensures Sum(list, p) == Sum(Without(list, rule, day), p) + (if p(rule, day) then Sum(list, OfBucket(rule, day))
            else 0)
    ensures |Without(list, rule, day)| <= |list|
    ensures (exists k :: 0 <= k < |list| && list[k].rule == rule && list[k].day == day)
            ==> |Without(list, rule, day)| < |list|
  {
    if list != [] {
      var rest := list[..|list| - 1];
      var b := list[|list| - 1];
      SumWithout(rest, rule, day, p);
      if b.rule != rule || b.day != day {
        SumAppend(Without(rest, rule, day), b, p);
        assert |Without(list, rule, day)| == |Without(rest, rule, day)| + 1;
      } else {
        assert Without(list, rule, day) == Without(rest, rule, day);
      }
    }
  }

  ghost predicate SameBuckets(a: seq<FireDay>, b: seq<FireDay>) {
    forall rule, day :: Sum(a, OfBucket(rule, day)) == Sum(b, OfBucket(rule, day))
  }

  // Lists that agree bucket by bucket agree on every total.
  lemma {:induction false} BucketsDecideSums(a: seq<FireDay>, b: seq<FireDay>, p: (string, int) -> bool)
    requires SameBuckets(a, b)
    ensures Sum(a, p) == Sum(b, p)
    decreases |a| + |b|
  {
    if a != [] || b != [] {
      var e := if a != [] then a[|a| - 1] else b[|b| - 1];
      SumWithout(a, e.rule, e.day, p);
      SumWithout(b, e.rule, e.day, p);
      var a', b' := Without(a, e.rule, e.day), Without(b, e.rule, e.day);
      forall rule, day ensures Sum(a', OfBucket(rule, day)) == Sum(b', OfBucket(rule, day)) {
        SumWithout(a, e.rule, e.day, OfBucket(rule, day));
        SumWithout(b, e.rule, e.day, OfBucket(rule, day));
      }
      BucketsDecideSums(a', b', p);
    }
  }

  // The buckets in retention, as a list.
  function InRetention(list: seq<FireDay>, cutoff: int): seq<FireDay> {
    if list == [] then []
    else
      var b := list[|list| - 1];
      InRetention(list[..|list| - 1], cutoff) + (if b.day >= cutoff && b.rule != "" then [b] else [])
  }

  lemma {:induction false} SumInRetention(list: seq<FireDay>, cutoff: int, p: (string, int) -> bool)
    ensures Sum(InRetention(list, cutoff), p) == Sum(list, Kept(p, cutoff))
  {
    if list != [] {
      var rest := list[..|list| - 1];
      var b := list[|list| - 1];
      SumInRetention(rest, cutoff, p);
      if b.day >= cutoff && b.rule != "" {
        SumAppend(InRetention(rest, cutoff), b, p);
      } else {
        assert InRetention(list, cutoff) == InRetention(rest, cutoff);
      }
    }
  }

  // Saving and loading keep every total over the days in retention: of a
  // rule, of a window, of a bucket.
  lemma SaveLoadKeepsTotals(list: seq<FireDay>, now: int, loaded: seq<FireDay>, p: (string, int) -> bool)
    requires forall rule, day :: Sum(loaded, OfBucket(rule, day)) == FileCount(Save(list, now), rule, day)
    ensures Sum(loaded, p) == Sum(list, Kept(p, now - RETENTION_DAYS))
  {
    var cutoff := now - RETENTION_DAYS;
    var kept := InRetention(list, cutoff);
    forall rule, day ensures Sum(loaded, OfBucket(rule, day)) == Sum(kept, OfBucket(rule, day)) {
      SavedCount(list, cutoff, rule, day);
      SumInRetention(list, cutoff, OfBucket(rule, day));
    }
    BucketsDecideSums(loaded, kept, p);
    SumInRetention(list, cutoff, p);
  }
}
