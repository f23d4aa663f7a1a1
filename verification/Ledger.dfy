/** The learned false-positive ledger: an append-only file of rows that, read
    back, is a map from fingerprint to entry. A later row for a fingerprint
    supersedes the earlier one and keeps its place. */
module Ledger {
  import opened Options

  type Fingerprint = string

  datatype Entry = Entry(fingerprint: Fingerprint, rule: string, reason: string, timestamp: string)

  // Sixteen hexadecimal digits; the expression's $ lets a newline follow.
  predicate IsValid(e: Entry) {
    && (|e.fingerprint| == 16 || (|e.fingerprint| == 17 && e.fingerprint[16] == '\n'))
    && forall k | 0 <= k < 16 :: '0' <= e.fingerprint[k] <= '9' || 'a' <= e.fingerprint[k] <= 'f'
  }

  // A line of the file, as the reader sees it.
  datatype Line = Row(entry: Entry) | Comment | Blank | Junk

  // The file: its terminated lines, and a last line without its newline.
  datatype File = File(lines: seq<Line>, tail: Option<Line>)

  // `clock` is what the clock reads when the request is decided.
  datatype Request = Request(entry: Entry, replaceReason: bool, clock: string)

  datatype Outcome = Recorded | AlreadyRecorded | ReasonReplaced
  datatype Result = Result(outcome: Outcome, entry: Entry)

  // ------------------------------------------------------------------ reading

  // Where a fingerprint is held, or the length of the list.
  function Find(list: seq<Entry>, fp: Fingerprint): (k: nat)
    ensures k <= |list|
    ensures k < |list| ==> list[k].fingerprint == fp
    ensures forall j | 0 <= j < k :: list[j].fingerprint != fp
  {
    if list == [] || list[0].fingerprint == fp then 0 else 1 + Find(list[1..], fp)
  }

  function Put(list: seq<Entry>, e: Entry): seq<Entry> {
    var k := Find(list, e.fingerprint);
    if k < |list| then list[k := e] else list + [e]
  }

  function Read(list: seq<Entry>, line: Line): seq<Entry> {
    if line.Row? && IsValid(line.entry) then Put(list, line.entry) else list
  }

  function Replay(list: seq<Entry>, lines: seq<Line>): seq<Entry>
    decreases |lines|
  {
    if lines == [] then list else Replay(Read(list, lines[0]), lines[1..])
  }

  // The reader splits at newlines, so a torn last line is read as well.
  function AllLines(f: File): seq<Line> {
    f.lines + (if f.tail.Some? then [f.tail.value] else [])
  }

  function Load(f: File): seq<Entry> {
    Replay([], AllLines(f))
  }

  ghost predicate Distinct(list: seq<Entry>) {
    forall i, j | 0 <= i < j < |list| :: list[i].fingerprint != list[j].fingerprint
  }

  ghost predicate Indexes(positions: map<Fingerprint, nat>, list: seq<Entry>) {
    && (forall k | 0 <= k < |list| :: list[k].fingerprint in positions && positions[list[k].fingerprint] == k)
    && (forall fp | fp in positions :: positions[fp] < |list| && list[positions[fp]].fingerprint == fp)
  }

  lemma IndexFinds(positions: map<Fingerprint, nat>, list: seq<Entry>, fp: Fingerprint)
    requires Indexes(positions, list)
    ensures Find(list, fp) == if fp in positions then positions[fp] else |list|
  {
    var k := Find(list, fp);
    if k < |list| {
      assert list[k].fingerprint in positions;
    }
    assert fp in positions ==> list[positions[fp]].fingerprint == fp;
  }

  lemma {:induction false} ReplayConcat(list: seq<Entry>, a: seq<Line>, b: seq<Line>)
    ensures Replay(list, a + b) == Replay(Replay(list, a), b)
    decreases |a|
  {
    if a == [] {
      assert a + b == b;
    } else {
      assert (a + b)[1..] == a[1..] + b;
      ReplayConcat(Read(list, a[0]), a[1..], b);
    }
  }

  // The reading loop, with its index from fingerprint to place.
  method LoadEntries(f: File) returns (out: seq<Entry>, positions: map<Fingerprint, nat>)
    ensures out == Load(f) && Indexes(positions, out)
  {
    out, positions := [], map[];
    var lines := AllLines(f);
    var i := 0;
    while i < |lines|
      invariant 0 <= i <= |lines|
      invariant Replay([], lines) == Replay(out, lines[i..])
      invariant Indexes(positions, out)
    {
      ReplayNext(out, lines, i);
      if lines[i].Row? && IsValid(lines[i].entry) {
        var e := lines[i].entry;
        PutIndexed(positions, out, e);
        if e.fingerprint in positions {
          out := out[positions[e.fingerprint] := e];
        } else {
          positions := positions[e.fingerprint := |out|];
          out := out + [e];
        }
      }
      i := i + 1;
    }
    assert lines[|lines|..] == [];
  }

  lemma ReplayNext(list: seq<Entry>, lines: seq<Line>, i: nat)
    requires i < |lines|
    ensures Replay(list, lines[i..]) == Replay(Read(list, lines[i]), lines[i + 1..])
  {
    assert lines[i..][1..] == lines[i + 1..];
  }

  // The index says where an entry goes and stays an index.
  lemma PutIndexed(positions: map<Fingerprint, nat>, list: seq<Entry>, e: Entry)
    requires Indexes(positions, list)
    ensures Put(list, e) == if e.fingerprint in positions then list[positions[e.fingerprint] := e] else list + [e]
    ensures Indexes(if e.fingerprint in positions then positions else positions[e.fingerprint := |list|], Put(list, e))
  {
    IndexFinds(positions, list, e.fingerprint);
  }

  // ----------------------------------------------------------------- planning

  datatype Decision = Decision(stored: seq<Entry>, rows: seq<Entry>, result: Result)

  function Stamped(r: Request): Entry {
    if r.entry.timestamp == "" then r.entry.(timestamp := r.clock) else r.entry
  }

  function Decide(stored: seq<Entry>, r: Request): Decision {
    var e := Stamped(r);
    var k := Find(stored, e.fingerprint);
    if k == |stored| then Decision(stored + [e], [e], Result(Recorded, e))
    else if !r.replaceReason || stored[k].reason == e.reason then
      Decision(stored, [], Result(AlreadyRecorded, stored[k]))
    else
      var corrected := e.(rule := stored[k].rule);
      Decision(stored[k := corrected], [corrected], Result(ReasonReplaced, corrected))
  }

  datatype Plan = Plan(stored: seq<Entry>, rows: seq<Entry>, results: seq<Result>)

  function PlanOf(stored: seq<Entry>, requests: seq<Request>): Plan
    decreases |requests|
  {
    if requests == [] then Plan(stored, [], [])
    else
      var d := Decide(stored, requests[0]);
      var p := PlanOf(d.stored, requests[1..]);
      Plan(p.stored, d.rows + p.rows, [d.result] + p.results)
  }

  // What is planned after `list`, `rows` and `results` completes the plan.
  ghost predicate Planned(held: seq<Entry>, requests: seq<Request>, i: nat, list: seq<Entry>, rows: seq<Entry>,
      results: seq<Result>)
    requires i <= |requests|
  {
    var p := PlanOf(list, requests[i..]);
    PlanOf(held, requests) == Plan(p.stored, rows + p.rows, results + p.results)
  }

  lemma PlanGoesOn(held: seq<Entry>, requests: seq<Request>, i: nat, list: seq<Entry>, rows: seq<Entry>,
      results: seq<Result>)
    requires i < |requests| && Planned(held, requests, i, list, rows, results)
    ensures var d := Decide(list, requests[i]);
            Planned(held, requests, i + 1, d.stored, rows + d.rows, results + [d.result])
  {
    var d := Decide(list, requests[i]);
    var p := PlanOf(d.stored, requests[i + 1..]);
    assert requests[i..][1..] == requests[i + 1..] && requests[i..][0] == requests[i];
    assert rows + (d.rows + p.rows) == rows + d.rows + p.rows;
    assert results + ([d.result] + p.results) == results + [d.result] + p.results;
  }

  lemma PlanStarts(held: seq<Entry>, requests: seq<Request>)
    ensures Planned(held, requests, 0, held, [], [])
  {
    var p := PlanOf(held, requests);
    assert requests[0..] == requests;
    assert [] + p.rows == p.rows && [] + p.results == p.results;
  }

  lemma PlanEnds(held: seq<Entry>, requests: seq<Request>, list: seq<Entry>, rows: seq<Entry>, results: seq<Result>)
    requires Planned(held, requests, |requests|, list, rows, results)
    ensures PlanOf(held, requests) == Plan(list, rows, results)
  {
    assert requests[|requests|..] == [];
    assert rows + [] == rows && results + [] == results;
  }

  // One request against the list and its index.
  method DecideOne(list: seq<Entry>, positions: map<Fingerprint, nat>, r: Request)
    returns (d: Decision, positions': map<Fingerprint, nat>)
    requires Indexes(positions, list)
    ensures d == Decide(list, r) && Indexes(positions', d.stored)
  {
    var e := Stamped(r);
    positions' := positions;
    IndexFinds(positions, list, e.fingerprint);
    if e.fingerprint in positions {
      var at := positions[e.fingerprint];
      if !r.replaceReason || list[at].reason == e.reason {
        return Decision(list, [], Result(AlreadyRecorded, list[at])), positions;
      }
      e := e.(rule := list[at].rule);
      d := Decision(list[at := e], [e], Result(ReasonReplaced, e));
    } else {
      positions' := positions[e.fingerprint := |list|];
      d := Decision(list + [e], [e], Result(Recorded, e));
    }
  }

  method PlanRecords(held: seq<Entry>, index: map<Fingerprint, nat>, requests: seq<Request>)
    returns (rows: seq<Entry>, results: seq<Result>)
    requires Indexes(index, held)
    ensures rows == PlanOf(held, requests).rows && results == PlanOf(held, requests).results
  {
    var list: seq<Entry>, positions: map<Fingerprint, nat> := held, index;
    rows, results := [], [];
    var i := 0;
    PlanStarts(held, requests);
    while i < |requests|
      invariant 0 <= i <= |requests|
      invariant Indexes(positions, list)
      invariant Planned(held, requests, i, list, rows, results)
    {
      PlanGoesOn(held, requests, i, list, rows, results);
      var d;
      d, positions := DecideOne(list, positions, requests[i]);
      list, rows, results := d.stored, rows + d.rows, results + [d.result];
      i := i + 1;
    }
    PlanEnds(held, requests, list, rows, results);
  }

  // ---------------------------------------------------------------- appending

  function Rows(entries: seq<Entry>): seq<Line> {
    seq(|entries|, k requires 0 <= k < |entries| => Row(entries[k]))
  }

  // A row written behind a torn line shares that line with it. JSON followed
  // by JSON is neither; a comment stays one; blanks do not matter.
  function Glue(torn: Line, row: Line): Line {
    match torn
    case Blank => row
    case Comment => Comment
    case _ => Junk
  }

  function Append(f: File, rows: seq<Line>): File {
    if rows == [] then f
    else if f.tail.None? then File(f.lines + rows, None)
    else File(f.lines + [Glue(f.tail.value, rows[0])] + rows[1..], None)
  }

  predicate Fresh(f: File) {
    f.lines == [] && f.tail.None?
  }

  // A new file starts with a comment line.
  function WithHeader(f: File): File {
    if Fresh(f) then File([Comment], None) else f
  }

  predicate AllValid(requests: seq<Request>) {
    forall k | 0 <= k < |requests| :: IsValid(requests[k].entry)
  }

  // How the append ends. A short write leaves `whole` rows and, of the next
  // one, a torn line.
  datatype Write = Full | Refused | Short(whole: nat, torn: Option<Line>)

  // What a cut through a row can leave: nothing, all of it but its newline,
  // or a piece that is no JSON object.
  predicate CutOf(torn: Option<Line>, row: Entry) {
    torn == None || torn == Some(Row(row)) || torn == Some(Junk)
  }

  predicate Possible(w: Write, rows: seq<Entry>) {
    w.Short? ==> w.whole < |rows| && CutOf(w.torn, rows[w.whole])
  }

  function AppendTorn(f: File, rows: seq<Line>, torn: Option<Line>): File {
    var g := Append(f, rows);
    if torn.None? then g
    else if g.tail.None? then File(g.lines, torn)
    else File(g.lines, Some(Glue(g.tail.value, torn.value)))
  }

  function Written(f: File, rows: seq<Entry>, w: Write): File
    requires Possible(w, rows)
  {
    match w
    case Full => Append(WithHeader(f), Rows(rows))
    case Refused => f
    case Short(whole, torn) => AppendTorn(WithHeader(f), Rows(rows[..whole]), torn)
  }

  // What a call gives and what it leaves on disk. Nothing is written for a
  // dry run, for an invalid request, or when there is nothing to write.
  function Recording(f: File, requests: seq<Request>, dryRun: bool, dirOk: bool, w: Write): (File, Option<seq<Result>>)
    requires Possible(w, PlanOf(Load(f), requests).rows)
  {
    var p := PlanOf(Load(f), requests);
    if !AllValid(requests) then (f, None)
    else if dryRun then (f, Some(p.results))
    else if !dirOk then (f, None)
    else if p.rows == [] then (f, Some(p.results))
    else (Written(f, p.rows, w), if w == Full then Some(p.results) else None)
  }

  class LedgerFile {
    var file: File

    method RecordEntries(requests: seq<Request>, dryRun: bool, dirOk: bool, write: Write)
      returns (results: Option<seq<Result>>)
      requires Possible(write, PlanOf(Load(file), requests).rows)
      modifies this
      ensures (file, results) == Recording(old(file), requests, dryRun, dirOk, write)
    {
      var i := 0;
      while i < |requests|
        invariant 0 <= i <= |requests|
        invariant forall k | 0 <= k < i :: IsValid(requests[k].entry)
      {
        if !IsValid(requests[i].entry) {
          return None;
        }
        i := i + 1;
      }
      if !dryRun && !dirOk {
        return None;
      }
      var held, positions := LoadEntries(file);
      var rows, planned := PlanRecords(held, positions, requests);
      if dryRun || rows == [] {
        return Some(planned);
      }
      file := Written(file, rows, write);
      results := if write == Full then Some(planned) else None;
    }
  }

  // ----------------------------------------------------------------- properties

  lemma PutKeepsDistinct(list: seq<Entry>, e: Entry)
    requires Distinct(list)
    ensures Distinct(Put(list, e))
  {
  }

  // However often a fingerprint was written, it is held once.
  lemma {:induction false} ReplayIsDistinct(list: seq<Entry>, lines: seq<Line>)
    requires Distinct(list)
    ensures Distinct(Replay(list, lines))
    decreases |lines|
  {
    if lines != [] {
      if lines[0].Row? && IsValid(lines[0].entry) {
        PutKeepsDistinct(list, lines[0].entry);
      }
      ReplayIsDistinct(Read(list, lines[0]), lines[1..]);
    }
  }

  // Each decision's row, put into the list, gives the list the planner holds.
  lemma DecideIsPut(stored: seq<Entry>, r: Request)
    requires IsValid(r.entry)
    ensures var d := Decide(stored, r);
            && d.stored == Replay(stored, Rows(d.rows))
            && (forall k | 0 <= k < |d.rows| :: IsValid(d.rows[k]))
  {
    var d := Decide(stored, r);
    if d.rows != [] {
      assert Rows(d.rows) == [Row(d.rows[0])];
      assert Rows(d.rows)[1..] == [];
      assert Put(stored, d.rows[0]) == d.stored;
      assert Replay(stored, Rows(d.rows)) == Replay(Read(stored, Row(d.rows[0])), []);
    }
  }

  // The planner's memory is the replay of its rows.
  lemma {:induction false} PlanIsReplay(stored: seq<Entry>, requests: seq<Request>)
    requires AllValid(requests)
    ensures var p := PlanOf(stored, requests); p.stored == Replay(stored, Rows(p.rows))
    decreases |requests|
  {
    if requests != [] {
      var d := Decide(stored, requests[0]);
      var p := PlanOf(d.stored, requests[1..]);
      DecideIsPut(stored, requests[0]);
      PlanIsReplay(d.stored, requests[1..]);
      ReplayTwice(stored, d.rows, p.rows);
    }
  }

  lemma ReplayTwice(stored: seq<Entry>, a: seq<Entry>, b: seq<Entry>)
    ensures Replay(Replay(stored, Rows(a)), Rows(b)) == Replay(stored, Rows(a + b))
  {
    RowsConcat(a, b);
    ReplayConcat(stored, Rows(a), Rows(b));
  }

  lemma RowsConcat(a: seq<Entry>, b: seq<Entry>)
    ensures Rows(a + b) == Rows(a) + Rows(b)
  {
  }

  lemma HeaderIsIgnored(f: File)
    ensures Load(WithHeader(f)) == Load(f)
  {
    if Fresh(f) {
      assert AllLines(WithHeader(f)) == [Comment] && AllLines(f) == [];
      assert Replay([], [Comment]) == Replay(Read([], Comment), [Comment][1..]);
    }
  }

  // Reading back after an append: the old entries with the rows put in. On a
  // torn last line the first row, and whatever the torn line held, are lost.
  lemma LoadAfterAppend(f: File, rows: seq<Line>)
    requires rows != []
    ensures Load(Append(f, rows))
         == if f.tail == None || f.tail == Some(Blank) then Replay(Load(f), rows)
            else Replay(Replay([], f.lines), rows[1..])
  {
    var g := Append(f, rows);
    assert AllLines(g) == g.lines;
    if f.tail.None? {
      assert AllLines(f) == f.lines;
      ReplayConcat([], f.lines, rows);
    } else {
      LoadGlued(f, rows);
      GluedReads(Replay([], f.lines), f.tail.value, rows);
      LoadTail(f);
    }
  }

  // A blank torn line leaves the row behind it whole; any other spoils it.
  lemma GluedReads(list: seq<Entry>, torn: Line, rows: seq<Line>)
    requires rows != []
    ensures torn.Blank? ==> Read(list, torn) == list
    ensures torn.Blank? ==> Replay(Read(list, Glue(torn, rows[0])), rows[1..]) == Replay(list, rows)
    ensures !torn.Blank? ==> Read(list, Glue(torn, rows[0])) == list
  {
  }

  lemma LoadGlued(f: File, rows: seq<Line>)
    requires rows != [] && f.tail.Some?
    ensures Load(Append(f, rows)) == Replay(Read(Replay([], f.lines), Glue(f.tail.value, rows[0])), rows[1..])
  {
    var g := Append(f, rows);
    var rest := [Glue(f.tail.value, rows[0])] + rows[1..];
    assert AllLines(g) == f.lines + rest;
    ReplayConcat([], f.lines, rest);
    ReplayCons(Replay([], f.lines), rest[0], rows[1..]);
  }

  lemma ReplayCons(list: seq<Entry>, line: Line, rest: seq<Line>)
    ensures Replay(list, [line] + rest) == Replay(Read(list, line), rest)
  {
    assert ([line] + rest)[1..] == rest;
  }

  lemma LoadTail(f: File)
    requires f.tail.Some?
    ensures Load(f) == Read(Replay([], f.lines), f.tail.value)
  {
    ReplayConcat([], f.lines, [f.tail.value]);
    ReplayCons(Replay([], f.lines), f.tail.value, []);
    assert [f.tail.value] + [] == [f.tail.value];
  }

  // The file refines the planner's map: what is read back is what it held.
  lemma ReloadIsMemory(f: File, requests: seq<Request>)
    requires AllValid(requests) && (f.tail == None || f.tail == Some(Blank))
    ensures Load(Recording(f, requests, false, true, Full).0) == PlanOf(Load(f), requests).stored
  {
    var p := PlanOf(Load(f), requests);
    PlanIsReplay(Load(f), requests);
    HeaderIsIgnored(f);
    if p.rows != [] {
      assert Rows(p.rows) != [];
      LoadAfterAppend(WithHeader(f), Rows(p.rows));
    }
  }

  // The list holds exactly this entry for its fingerprint.
  predicate Holds(list: seq<Entry>, e: Entry) {
    var k := Find(list, e.fingerprint);
    k < |list| && list[k] == e
  }

  // The entry of a torn last line, if it is one.
  function TornEntry(f: File): Option<Entry> {
    if f.tail.Some? && f.tail.value.Row? && IsValid(f.tail.value.entry) then Some(f.tail.value.entry) else None
  }

  lemma HeldIsPut(f: File)
    requires f.tail.Some?
    ensures var list := Replay([], f.lines);
            Load(f) == if TornEntry(f).Some? then Put(list, TornEntry(f).value) else list
  {
    LoadTail(f);
  }

  // Two rows put into a list change nothing exactly when it holds the second,
  // and the first as well if that is of another fingerprint.
  lemma PutsChangeNothing(list: seq<Entry>, t: Entry, x: Entry)
    ensures Put(list, x) == list <==> Holds(list, x)
    ensures Put(Put(list, t), x) == list
       <==> Holds(list, x) && (t.fingerprint == x.fingerprint || Holds(list, t))
  {
    if Put(Put(list, t), x) == list {
      PutHolds(Put(list, t), x);
      if t.fingerprint != x.fingerprint {
        PutHolds(list, t);
        PutKeepsOthers(Put(list, t), x, t);
      }
    }
    PutOfHeld(list, x);
    PutOfHeld(list, t);
    if Holds(list, x) && t.fingerprint == x.fingerprint {
      var k := Find(list, x.fingerprint);
      FindIs(list[k := t], x.fingerprint, k);
      assert list[k := t][k := x] == list;
    }
  }

  lemma PutOfHeld(list: seq<Entry>, e: Entry)
    ensures Put(list, e) == list <==> Holds(list, e)
  {
    var k := Find(list, e.fingerprint);
    if k < |list| {
      assert list[k := e][k] == e;
    }
  }

  lemma PutHolds(list: seq<Entry>, e: Entry)
    ensures Holds(Put(list, e), e)
  {
    FindIs(Put(list, e), e.fingerprint, Find(list, e.fingerprint));
  }

  lemma PutKeepsOthers(list: seq<Entry>, x: Entry, e: Entry)
    requires x.fingerprint != e.fingerprint && Holds(list, e)
    ensures Holds(Put(list, x), e)
  {
    FindIs(Put(list, x), e.fingerprint, Find(list, e.fingerprint));
  }

  lemma FindIs(list: seq<Entry>, fp: Fingerprint, k: nat)
    requires k < |list| && list[k].fingerprint == fp && forall j | 0 <= j < k :: list[j].fingerprint != fp
    ensures Find(list, fp) == k
  {
  }

  lemma OneRequest(held: seq<Entry>, r: Request)
    ensures var p := PlanOf(held, [r]);
            if p.rows == [] then p.stored == held
            else |p.rows| == 1 && p.stored == Put(held, p.rows[0]) && !Holds(held, p.rows[0])
  {
    var d := Decide(held, r);
    assert [r][1..] == [] && PlanOf(d.stored, []) == Plan(d.stored, [], []);
    assert PlanOf(held, [r]).rows == d.rows + [] == d.rows;
  }

  // On a torn line a recorded request is lost, and a torn row with it: reading
  // back gives the planner's memory exactly when the file ends in a newline or
  // a blank, nothing had to be written, or the lines before the torn one hold
  // what is lost. They never hold it when the torn line was no row.
  lemma TornLineLosesTheRow(f: File, r: Request)
    requires IsValid(r.entry)
    ensures var rows := PlanOf(Load(f), [r]).rows;
            var list := Replay([], f.lines);
            && (Load(Recording(f, [r], false, true, Full).0) == PlanOf(Load(f), [r]).stored
               <==> f.tail == None || f.tail == Some(Blank) || rows == []
                    || (Holds(list, rows[0]) && (TornEntry(f).Some? ==>
                        TornEntry(f).value.fingerprint == rows[0].fingerprint || Holds(list, TornEntry(f).value))))
            && (rows != [] && f.tail.Some? && TornEntry(f) == None ==> !Holds(list, rows[0]))
  {
    var p := PlanOf(Load(f), [r]);
    OneRequest(Load(f), r);
    if f.tail.Some? {
      HeldIsPut(f);
    }
    if f.tail == None || f.tail == Some(Blank) {
      ReloadIsMemory(f, [r]);
    } else if p.rows != [] {
      var t := if TornEntry(f).Some? then TornEntry(f).value else p.rows[0];
      LoadAfterAppend(f, Rows(p.rows));
      assert Rows(p.rows)[1..] == [];
      PutsChangeNothing(Replay([], f.lines), t, p.rows[0]);
    }
  }

  // A row torn only by its newline goes down together with the next one.
  lemma TornRowIsLostToo(f: File, r: Request)
    requires IsValid(r.entry) && f.tail.Some? && f.tail.value.Row? && PlanOf(Load(f), [r]).rows != []
    ensures Load(Recording(f, [r], false, true, Full).0) == Replay([], f.lines)
  {
    var p := PlanOf(Load(f), [r]);
    assert [r][1..] == [] && |p.rows| == 1;
    LoadAfterAppend(f, Rows(p.rows));
    assert Rows(p.rows)[1..] == [];
  }

  // How many rows of a short write are whole, one that lacks only its newline
  // among them.
  function WholeRows(rows: seq<Entry>, w: Write): (n: nat)
    requires Possible(w, rows) && w.Short?
    ensures n <= |rows|
  {
    w.whole + (if w.torn == Some(Row(rows[w.whole])) then 1 else 0)
  }

  lemma ReadTorn(list: seq<Entry>, rows: seq<Entry>, w: Write, from: nat)
    requires Possible(w, rows) && w.Short? && w.torn.Some? && from <= w.whole
    ensures Read(Replay(list, Rows(rows[from..w.whole])), w.torn.value)
         == Replay(list, Rows(rows[from..WholeRows(rows, w)]))
  {
    if w.torn == Some(Row(rows[w.whole])) {
      OneMoreRow(rows, from, w.whole);
      ReplayOneMore(list, rows[from..w.whole], rows[w.whole]);
    } else {
      assert !w.torn.value.Row?;
    }
  }

  lemma OneMoreRow(rows: seq<Entry>, from: nat, to: nat)
    requires from <= to < |rows|
    ensures rows[from..to + 1] == rows[from..to] + [rows[to]]
  {
  }

  lemma ReplayOneMore(list: seq<Entry>, rows: seq<Entry>, e: Entry)
    ensures Replay(list, Rows(rows + [e])) == Read(Replay(list, Rows(rows)), Row(e))
  {
    assert Rows(rows + [e]) == Rows(rows) + [Row(e)];
    ReplayConcat(list, Rows(rows), [Row(e)]);
    ReplayCons(Replay(list, Rows(rows)), Row(e), []);
    assert [Row(e)] + [] == [Row(e)];
  }

  // After a short write, what is read back is a prefix of the planned rows.
  lemma ShortWriteKeepsAPrefix(f: File, rows: seq<Entry>, w: Write)
    requires Possible(w, rows) && w.Short? && (f.tail == None || f.tail == Some(Blank))
    ensures Load(Written(f, rows, w)) == Replay(Load(f), Rows(rows[..WholeRows(rows, w)]))
  {
    var h := WithHeader(f);
    HeaderIsIgnored(f);
    var g := Append(h, Rows(rows[..w.whole]));
    assert rows[0..w.whole] == rows[..w.whole] && rows[0..WholeRows(rows, w)] == rows[..WholeRows(rows, w)];
    if w.whole > 0 {
      LoadAfterAppend(h, Rows(rows[..w.whole]));
    } else {
      assert Rows(rows[..0]) == [];
    }
    if w.torn.Some? {
      ReadTorn(Load(f), rows, w, 0);
      TornIsRead(g, w.torn.value);
    }
  }

  lemma TornIsRead(g: File, torn: Line)
    requires g.tail == None || g.tail == Some(Blank)
    ensures Load(File(g.lines, Some(torn))) == Read(Load(g), torn)
  {
    LoadTail(File(g.lines, Some(torn)));
    if g.tail == Some(Blank) {
      LoadTail(g);
    } else {
      assert AllLines(g) == g.lines;
    }
  }

  // Behind a torn line a short write that wrote anything loses what the torn
  // line held and the first row; the rest of its whole rows is read back.
  lemma ShortWriteBehindTorn(f: File, rows: seq<Entry>, w: Write)
    requires Possible(w, rows) && w.Short? && f.tail.Some? && f.tail != Some(Blank)
    ensures Load(Written(f, rows, w))
         == if w.whole == 0 && w.torn == None then Load(f)
            else if w.whole == 0 then Replay([], f.lines)
            else Replay(Replay([], f.lines), Rows(rows[1..WholeRows(rows, w)]))
  {
    var list := Replay([], f.lines);
    if w.whole > 0 {
      var g := Append(f, Rows(rows[..w.whole]));
      LoadAfterAppend(f, Rows(rows[..w.whole]));
      assert Rows(rows[..w.whole])[1..] == Rows(rows[1..w.whole]);
      if w.torn.Some? {
        ReadTorn(list, rows, w, 1);
        TornIsRead(g, w.torn.value);
      }
    } else {
      assert Rows(rows[..0]) == [];
      if w.torn.Some? {
        LoadTail(File(f.lines, Some(Glue(f.tail.value, w.torn.value))));
      }
    }
  }

  // ---- one by one

  lemma Associate<T>(a: seq<T>, b: seq<T>, c: seq<T>)
    ensures a + (b + c) == (a + b) + c
  {
  }

  lemma {:induction false} PlanConcat(stored: seq<Entry>, a: seq<Request>, b: seq<Request>)
    ensures var p := PlanOf(stored, a);
            var q := PlanOf(p.stored, b);
            PlanOf(stored, a + b) == Plan(q.stored, p.rows + q.rows, p.results + q.results)
    decreases |a|
  {
    if a == [] {
      assert a + b == b;
      var q := PlanOf(stored, b);
      assert [] + q.rows == q.rows && [] + q.results == q.results;
    } else {
      var d := Decide(stored, a[0]);
      assert (a + b)[1..] == a[1..] + b && (a + b)[0] == a[0];
      PlanConcat(d.stored, a[1..], b);
      var p := PlanOf(d.stored, a[1..]);
      var q := PlanOf(p.stored, b);
      Associate(d.rows, p.rows, q.rows);
      Associate([d.result], p.results, q.results);
    }
  }

  // The file after the requests were issued one call at a time.
  function OneByOne(f: File, requests: seq<Request>): (File, seq<Result>)
    requires AllValid(requests)
    decreases |requests|
  {
    if requests == [] then (f, [])
    else
      var one := Recording(f, [requests[0]], false, true, Full);
      var rest := OneByOne(one.0, requests[1..]);
      (rest.0, (if one.1.Some? then one.1.value else []) + rest.1)
  }

  predicate EndsWell(f: File) {
    f.tail == None || f.tail == Some(Blank)
  }

  lemma AppendPlain(f: File, rows: seq<Entry>)
    requires EndsWell(f) && rows != []
    ensures Append(f, Rows(rows)) == File(f.lines + Rows(rows), None)
  {
    if f.tail.Some? {
      assert f.lines + [Rows(rows)[0]] + Rows(rows)[1..] == f.lines + Rows(rows);
    }
  }

  lemma AppendTwice(f: File, a: seq<Entry>, b: seq<Entry>)
    requires EndsWell(f) && a != [] && b != []
    ensures Append(Append(f, Rows(a)), Rows(b)) == Append(f, Rows(a + b))
  {
    AppendPlain(f, a);
    AppendPlain(Append(f, Rows(a)), b);
    AppendPlain(f, a + b);
    assert Rows(a + b) == Rows(a) + Rows(b);
    assert f.lines + Rows(a) + Rows(b) == f.lines + Rows(a + b);
  }

  function AfterPlan(f: File, rows: seq<Entry>): File {
    if rows == [] then f else Append(WithHeader(f), Rows(rows))
  }

  lemma AfterPlanConcat(f: File, a: seq<Entry>, b: seq<Entry>)
    requires EndsWell(f)
    ensures AfterPlan(AfterPlan(f, a), b) == AfterPlan(f, a + b)
  {
    if a == [] {
      assert a + b == b;
    } else if b == [] {
      assert a + b == a;
    } else {
      AppendPlain(WithHeader(f), a);
      AppendTwice(WithHeader(f), a, b);
    }
  }

  ghost predicate SameOneByOne(f: File, requests: seq<Request>)
    requires AllValid(requests)
  {
    var batch := Recording(f, requests, false, true, Full);
    batch.1 == Some(OneByOne(f, requests).1) && batch.0 == OneByOne(f, requests).0
  }

  // On a log that ends in a newline or a blank, a batch leaves the file and
  // gives the results of the same requests issued one by one.
  lemma {:induction false} WholeLogOneByOne(f: File, requests: seq<Request>)
    requires AllValid(requests) && EndsWell(f)
    ensures SameOneByOne(f, requests)
    decreases |requests|
  {
    if requests != [] {
      var one := [requests[0]];
      var rest := requests[1..];
      assert requests == one + rest;
      assert AllValid(one) && AllValid(rest);
      var p := PlanOf(Load(f), one);
      var g := Recording(f, one, false, true, Full).0;
      assert g == AfterPlan(f, p.rows);
      ReloadIsMemory(f, one);
      PlanConcat(Load(f), one, rest);
      WholeLogOneByOne(g, rest);
      AfterPlanConcat(f, p.rows, PlanOf(Load(g), rest).rows);
    }
  }

  function FirstFor(requests: seq<Request>, fp: Fingerprint): Option<Request> {
    if requests == [] then None
    else if requests[0].entry.fingerprint == fp then Some(requests[0])
    else FirstFor(requests[1..], fp)
  }

  // The request gives both maps the same reason, which neither had.
  ghost predicate Corrects(a: map<Fingerprint, Entry>, b: map<Fingerprint, Entry>, r: Request) {
    var e := r.entry;
    && e.fingerprint in a && e.fingerprint in b && a[e.fingerprint].rule == b[e.fingerprint].rule
    && r.replaceReason && a[e.fingerprint].reason != e.reason && b[e.fingerprint].reason != e.reason
  }

  // No request can tell the maps apart by this fingerprint: they agree on it,
  // none names it, or the first that does corrects both.
  ghost predicate Alike(a: map<Fingerprint, Entry>, b: map<Fingerprint, Entry>, requests: seq<Request>,
      fp: Fingerprint) {
    var first := FirstFor(requests, fp);
    AgreeAt(a, b, fp) || first.None? || Corrects(a, b, first.value)
  }

  ghost predicate AllAlike(a: seq<Entry>, b: seq<Entry>, requests: seq<Request>) {
    forall fp :: Alike(AsMap(a), AsMap(b), requests, fp)
  }

  lemma DecisionTells(a: seq<Entry>, b: seq<Entry>, r: Request)
    ensures Decide(a, r).result == Decide(b, r).result
       <==> AgreeAt(AsMap(a), AsMap(b), r.entry.fingerprint) || Corrects(AsMap(a), AsMap(b), r)
    ensures Decide(a, r).result == Decide(b, r).result ==>
              Decide(a, r).rows == Decide(b, r).rows
              && AgreeAt(AsMap(Decide(a, r).stored), AsMap(Decide(b, r).stored), r.entry.fingerprint)
  {
    MapFinds(a, r.entry.fingerprint);
    MapFinds(b, r.entry.fingerprint);
    DecideIsOnMap(a, r);
    DecideIsOnMap(b, r);
  }

  lemma SameTail<T>(x: T, y: T, a: seq<T>, b: seq<T>)
    ensures [x] + a == [y] + b <==> x == y && a == b
  {
    assert ([x] + a)[0] == x && ([y] + b)[0] == y;
    assert ([x] + a)[1..] == a && ([y] + b)[1..] == b;
  }

  // Two plans for the same requests have the same results, and then the same
  // rows, exactly when no request can tell the two memories apart.
  lemma {:induction false} PlansAgree(a: seq<Entry>, b: seq<Entry>, requests: seq<Request>)
    ensures PlanOf(a, requests).results == PlanOf(b, requests).results
       <==> AllAlike(a, b, requests)
    ensures PlanOf(a, requests).results == PlanOf(b, requests).results ==>
              PlanOf(a, requests).rows == PlanOf(b, requests).rows
    decreases |requests|
  {
    if requests != [] {
      var r, rest := requests[0], requests[1..];
      var a', b' := Decide(a, r).stored, Decide(b, r).stored;
      DecisionTells(a, b, r);
      PlansAgree(a', b', rest);
      DecideIsOnMap(a, r);
      DecideIsOnMap(b, r);
      PlanHeads(a, r, rest);
      PlanHeads(b, r, rest);
      assert requests == [r] + rest;
      SameTail(Decide(a, r).result, Decide(b, r).result, PlanOf(a', rest).results, PlanOf(b', rest).results);
      if Decide(a, r).result == Decide(b, r).result {
        AlikeAfter(AsMap(a), AsMap(b), r, rest);
      } else {
        assert !Alike(AsMap(a), AsMap(b), requests, r.entry.fingerprint);
      }
    }
  }

  lemma PlanHeads(stored: seq<Entry>, r: Request, rest: seq<Request>)
    ensures var d := Decide(stored, r);
            var p := PlanOf(d.stored, rest);
            var all := PlanOf(stored, [r] + rest);
            all.rows == d.rows + p.rows && all.results == [d.result] + p.results
  {
    assert ([r] + rest)[1..] == rest;
  }

  lemma {:induction false} FirstForIs(requests: seq<Request>, fp: Fingerprint)
    ensures FirstFor(requests, fp).Some? ==> FirstFor(requests, fp).value.entry.fingerprint == fp
  {
    if requests != [] {
      FirstForIs(requests[1..], fp);
    }
  }

  lemma AlikeAfter(a: map<Fingerprint, Entry>, b: map<Fingerprint, Entry>, r: Request, rest: seq<Request>)
    requires AgreeAt(a, b, r.entry.fingerprint) || Corrects(a, b, r)
    requires AgreeAt(OnMap(a, r), OnMap(b, r), r.entry.fingerprint)
    ensures (forall fp :: Alike(OnMap(a, r), OnMap(b, r), rest, fp)) <==> (forall fp :: Alike(a, b, [r] + rest, fp))
  {
    forall fp ensures Alike(OnMap(a, r), OnMap(b, r), rest, fp) <==> Alike(a, b, [r] + rest, fp) {
      assert ([r] + rest)[0] == r && ([r] + rest)[1..] == rest;
      FirstForIs(rest, fp);
    }
  }

  // Behind a torn line the first request that writes is lost, and a torn row
  // with it. One by one, the later requests see that; in a batch they do not.
  ghost predicate NoneTells(list: seq<Entry>, held: seq<Entry>, requests: seq<Request>)
    decreases |requests|
  {
    requests == []
    || var d := Decide(held, requests[0]);
       if d.rows == [] then NoneTells(list, held, requests[1..])
       else AllAlike(d.stored, list, requests[1..])
  }

  // The first call of many, and the rest on the file it leaves.
  lemma FirstCall(f: File, r: Request, rest: seq<Request>)
    requires AllValid([r] + rest) && AllValid(rest) && AllValid([r])
    ensures var d := Decide(Load(f), r);
            var g := AfterPlan(f, d.rows);
            var p := PlanOf(d.stored, rest);
            && Recording(f, [r], false, true, Full) == (g, Some([d.result]))
            && OneByOne(f, [r] + rest) == (OneByOne(g, rest).0, [d.result] + OneByOne(g, rest).1)
            && Recording(f, [r] + rest, false, true, Full)
               == (AfterPlan(f, d.rows + p.rows), Some([d.result] + p.results))
  {
    var d := Decide(Load(f), r);
    PlanHeads(Load(f), r, rest);
    PlanHeads(Load(f), r, []);
    assert [r] + [] == [r] && d.rows + [] == d.rows && [d.result] + [] == [d.result];
    assert ([r] + rest)[1..] == rest;
  }

  // A request that writes nothing leaves the rest as it was.
  lemma SkipsOneByOne(f: File, r: Request, rest: seq<Request>)
    requires AllValid([r] + rest) && AllValid(rest) && AllValid([r]) && Decide(Load(f), r).rows == []
    ensures SameOneByOne(f, [r] + rest) <==> SameOneByOne(f, rest)
  {
    var d := Decide(Load(f), r);
    FirstCall(f, r, rest);
    assert d.stored == Load(f) && [] + PlanOf(Load(f), rest).rows == PlanOf(Load(f), rest).rows;
    SameTail(d.result, d.result, PlanOf(Load(f), rest).results, OneByOne(f, rest).1);
  }

  // The first request that writes goes down with the torn line; the rest then
  // stands on the lines before it.
  lemma FirstGoesOneByOne(f: File, r: Request, rest: seq<Request>)
    requires AllValid([r] + rest) && AllValid(rest) && AllValid([r]) && !EndsWell(f)
    requires Decide(Load(f), r).rows != []
    ensures SameOneByOne(f, [r] + rest)
       <==> PlanOf(Decide(Load(f), r).stored, rest).results == PlanOf(Replay([], f.lines), rest).results
  {
    var d := Decide(Load(f), r);
    var g := AfterPlan(f, d.rows);
    var p, q := PlanOf(d.stored, rest), PlanOf(Replay([], f.lines), rest);
    FirstCall(f, r, rest);
    LoadAfterAppend(f, Rows(d.rows));
    assert Rows(d.rows)[1..] == [];
    WholeLogOneByOne(g, rest);
    GlueOnce(f, d.rows[0], p.rows);
    SameTail(d.result, d.result, p.results, q.results);
    PlansAgree(d.stored, Replay([], f.lines), rest);
  }

  // Only the first row shares the torn line.
  lemma GlueOnce(f: File, x: Entry, rows: seq<Entry>)
    requires f.tail.Some?
    ensures AfterPlan(f, [x] + rows) == AfterPlan(AfterPlan(f, [x]), rows)
  {
    var g := AfterPlan(f, [x]);
    assert Rows([x] + rows)[1..] == Rows(rows) && Rows([x])[1..] == [];
    assert g == File(f.lines + [Glue(f.tail.value, Row(x))], None);
  }

  lemma NoneTellsHead(list: seq<Entry>, held: seq<Entry>, r: Request, rest: seq<Request>)
    ensures NoneTells(list, held, [r] + rest)
       <==> var d := Decide(held, r);
            if d.rows == [] then NoneTells(list, held, rest)
            else PlanOf(d.stored, rest).results == PlanOf(list, rest).results
  {
    assert ([r] + rest)[0] == r && ([r] + rest)[1..] == rest;
    PlansAgree(Decide(held, r).stored, list, rest);
  }

  lemma {:induction false} TornLogOneByOne(f: File, requests: seq<Request>)
    requires AllValid(requests) && !EndsWell(f)
    ensures SameOneByOne(f, requests) <==> NoneTells(Replay([], f.lines), Load(f), requests)
    decreases |requests|
  {
    if requests != [] {
      var r, rest := requests[0], requests[1..];
      assert requests == [r] + rest && AllValid(rest) && AllValid([r]);
      NoneTellsHead(Replay([], f.lines), Load(f), r, rest);
      if Decide(Load(f), r).rows == [] {
        SkipsOneByOne(f, r, rest);
        TornLogOneByOne(f, rest);
      } else {
        FirstGoesOneByOne(f, r, rest);
      }
      assert SameOneByOne(f, [r] + rest) <==> NoneTells(Replay([], f.lines), Load(f), [r] + rest);
    } else {
      assert OneByOne(f, requests) == (f, []);
      assert PlanOf(Load(f), requests).rows == [];
    }
  }

  // A batch is the same as its requests one by one if and only if the log ends
  // in a newline or a blank, or no later request can tell that the first one
  // that wrote was lost.
  lemma BatchIsOneByOne(f: File, requests: seq<Request>)
    requires AllValid(requests)
    ensures SameOneByOne(f, requests) <==> EndsWell(f) || NoneTells(Replay([], f.lines), Load(f), requests)
  {
    if EndsWell(f) {
      WholeLogOneByOne(f, requests);
    } else {
      TornLogOneByOne(f, requests);
    }
  }

  // A dry run reports what the call would report, and writes nothing.
  lemma DryRunTellsTheResults(f: File, requests: seq<Request>, dirOk: bool, w: Write)
    requires Possible(w, PlanOf(Load(f), requests).rows)
    ensures Recording(f, requests, true, dirOk, w).0 == f
    ensures Recording(f, requests, false, dirOk, w).1.Some?
        ==> Recording(f, requests, true, dirOk, w).1 == Recording(f, requests, false, dirOk, w).1
  {
  }

  // ---- the map

  // The first entry of a fingerprint is the one that is found.
  function AsMap(list: seq<Entry>): map<Fingerprint, Entry> {
    if list == [] then map[] else AsMap(list[1..])[list[0].fingerprint := list[0]]
  }

  // A fingerprint keeps the rule and the place it was first recorded with.
  lemma {:induction false} RuleNeverChanges(stored: seq<Entry>, requests: seq<Request>, k: nat)
    requires k < |stored|
    ensures var after := PlanOf(stored, requests).stored;
            |after| >= |stored| && after[k].fingerprint == stored[k].fingerprint && after[k].rule == stored[k].rule
    decreases |requests|
  {
    if requests != [] {
      RuleNeverChanges(Decide(stored, requests[0]).stored, requests[1..], k);
    }
  }

  // One request on the map: first recording wins the rule, a correction
  // replaces reason and time, anything else leaves it alone.
  function OnMap(m: map<Fingerprint, Entry>, r: Request): map<Fingerprint, Entry> {
    var e := Stamped(r);
    if e.fingerprint !in m then m[e.fingerprint := e]
    else if r.replaceReason && m[e.fingerprint].reason != e.reason then
        m[e.fingerprint := e.(rule := m[e.fingerprint].rule)]
    else m
  }

  function AllOnMap(m: map<Fingerprint, Entry>, requests: seq<Request>): map<Fingerprint, Entry>
    decreases |requests|
  {
    if requests == [] then m else AllOnMap(OnMap(m, requests[0]), requests[1..])
  }

  lemma {:induction false} AppendOnMap(list: seq<Entry>, e: Entry)
    requires Find(list, e.fingerprint) == |list|
    ensures AsMap(list + [e]) == AsMap(list)[e.fingerprint := e]
  {
    if list == [] {
      assert list + [e] == [e] && [e][1..] == [];
    } else {
      assert (list + [e])[1..] == list[1..] + [e];
      assert list[0].fingerprint != e.fingerprint;
      AppendOnMap(list[1..], e);
    }
  }

  lemma {:induction false} UpdateOnMap(list: seq<Entry>, k: nat, e: Entry)
    requires k < |list| && Find(list, e.fingerprint) == k
    ensures AsMap(list[k := e]) == AsMap(list)[e.fingerprint := e]
  {
    if k == 0 {
      assert list[0 := e][1..] == list[1..];
    } else {
      assert list[k := e][1..] == list[1..][k - 1 := e];
      assert list[0].fingerprint != e.fingerprint;
      UpdateOnMap(list[1..], k - 1, e);
    }
  }

  lemma {:induction false} MapFinds(list: seq<Entry>, fp: Fingerprint)
    ensures fp in AsMap(list) <==> Find(list, fp) < |list|
    ensures fp in AsMap(list) ==> AsMap(list)[fp] == list[Find(list, fp)]
  {
    if list != [] {
      MapFinds(list[1..], fp);
    }
  }

  lemma DecideIsOnMap(stored: seq<Entry>, r: Request)
    ensures AsMap(Decide(stored, r).stored) == OnMap(AsMap(stored), r)
  {
    var e := Stamped(r);
    var k := Find(stored, e.fingerprint);
    MapFinds(stored, e.fingerprint);
    if k == |stored| {
      AppendOnMap(stored, e);
    } else if r.replaceReason && stored[k].reason != e.reason {
      UpdateOnMap(stored, k, e.(rule := stored[k].rule));
    }
  }

  // The ledger is a map: recording, and reading the file back, is updating it.
  lemma {:induction false} LedgerIsAMap(stored: seq<Entry>, requests: seq<Request>)
    ensures AsMap(PlanOf(stored, requests).stored) == AllOnMap(AsMap(stored), requests)
    decreases |requests|
  {
    if requests != [] {
      DecideIsOnMap(stored, requests[0]);
      LedgerIsAMap(Decide(stored, requests[0]).stored, requests[1..]);
    }
  }

  lemma FileRefinesMap(f: File, requests: seq<Request>)
    requires AllValid(requests) && (f.tail == None || f.tail == Some(Blank))
    ensures AsMap(Load(Recording(f, requests, false, true, Full).0)) == AllOnMap(AsMap(Load(f)), requests)
  {
    ReloadIsMemory(f, requests);
    LedgerIsAMap(Load(f), requests);
  }

  // ---- a torn line, on the map

  function PutAll(m: map<Fingerprint, Entry>, rows: seq<Entry>): map<Fingerprint, Entry>
    decreases |rows|
  {
    if rows == [] then m else PutAll(m[rows[0].fingerprint := rows[0]], rows[1..])
  }

  predicate HasRow(rows: seq<Entry>, fp: Fingerprint) {
    exists k :: 0 <= k < |rows| && rows[k].fingerprint == fp
  }

  predicate HoldsEntry(m: map<Fingerprint, Entry>, e: Entry) {
    e.fingerprint in m && m[e.fingerprint] == e
  }

  // A lost row does no harm when a later row has its fingerprint, or the rest
  // of the file held it already.
  predicate Restored(m: map<Fingerprint, Entry>, e: Entry, later: seq<Entry>) {
    HasRow(later, e.fingerprint) || HoldsEntry(m, e)
  }

  ghost predicate AgreeAt(a: map<Fingerprint, Entry>, b: map<Fingerprint, Entry>, fp: Fingerprint) {
    (fp in a <==> fp in b) && (fp in a && fp in b ==> a[fp] == b[fp])
  }

  lemma HasRowHead(rows: seq<Entry>, fp: Fingerprint)
    requires rows != []
    ensures HasRow(rows, fp) <==> rows[0].fingerprint == fp || HasRow(rows[1..], fp)
  {
    if HasRow(rows[1..], fp) {
      var k :| 0 <= k < |rows| - 1 && rows[1..][k].fingerprint == fp;
      assert rows[k + 1].fingerprint == fp;
    }
    if HasRow(rows, fp) && rows[0].fingerprint != fp {
      var k :| 0 <= k < |rows| && rows[k].fingerprint == fp;
      assert rows[1..][k - 1].fingerprint == fp;
    }
  }

  // The same rows put into two maps hide where these differ, and only there.
  lemma {:induction false} SameRowsSameMap(a: map<Fingerprint, Entry>, b: map<Fingerprint, Entry>, rows: seq<Entry>)
    ensures PutAll(a, rows) == PutAll(b, rows) <==> forall fp :: AgreeAt(a, b, fp) || HasRow(rows, fp)
    decreases |rows|
  {
    if rows == [] {
      SameMap(a, b);
    } else {
      var e := rows[0];
      var a', b' := a[e.fingerprint := e], b[e.fingerprint := e];
      SameRowsSameMap(a', b', rows[1..]);
      forall fp ensures AgreeAt(a', b', fp) || HasRow(rows[1..], fp) <==> AgreeAt(a, b, fp) || HasRow(rows, fp) {
        HasRowHead(rows, fp);
      }
    }
  }

  lemma SameMap(a: map<Fingerprint, Entry>, b: map<Fingerprint, Entry>)
    ensures a == b <==> forall fp :: AgreeAt(a, b, fp)
  {
    if forall fp :: AgreeAt(a, b, fp) {
      forall fp ensures fp in a <==> fp in b {
        assert AgreeAt(a, b, fp);
      }
      forall fp | fp in a ensures a[fp] == b[fp] {
        assert AgreeAt(a, b, fp);
      }
    }
  }

  lemma PutOnMap(list: seq<Entry>, e: Entry)
    ensures AsMap(Put(list, e)) == AsMap(list)[e.fingerprint := e]
  {
    if Find(list, e.fingerprint) == |list| {
      AppendOnMap(list, e);
    } else {
      UpdateOnMap(list, Find(list, e.fingerprint), e);
    }
  }

  lemma {:induction false} ReplayOnMap(list: seq<Entry>, rows: seq<Entry>)
    requires forall k | 0 <= k < |rows| :: IsValid(rows[k])
    ensures AsMap(Replay(list, Rows(rows))) == PutAll(AsMap(list), rows)
    decreases |rows|
  {
    if rows != [] {
      assert Rows(rows)[0] == Row(rows[0]) && Rows(rows)[1..] == Rows(rows[1..]);
      PutOnMap(list, rows[0]);
      ReplayOnMap(Put(list, rows[0]), rows[1..]);
    }
  }

  lemma {:induction false} PlannedRowsAreValid(stored: seq<Entry>, requests: seq<Request>)
    requires AllValid(requests)
    ensures forall k | 0 <= k < |PlanOf(stored, requests).rows| :: IsValid(PlanOf(stored, requests).rows[k])
    decreases |requests|
  {
    if requests != [] {
      DecideIsPut(stored, requests[0]);
      PlannedRowsAreValid(Decide(stored, requests[0]).stored, requests[1..]);
    }
  }

  // A planned row is never what the list holds already.
  lemma {:induction false} FirstRowIsNew(stored: seq<Entry>, requests: seq<Request>)
    requires PlanOf(stored, requests).rows != []
    ensures !HoldsEntry(AsMap(stored), PlanOf(stored, requests).rows[0])
    decreases |requests|
  {
    var d := Decide(stored, requests[0]);
    MapFinds(stored, Stamped(requests[0]).fingerprint);
    if d.rows == [] {
      FirstRowIsNew(stored, requests[1..]);
    }
  }

  // Without the first row, and without the torn entry, the same rows give the
  // same map exactly when both are restored.
  lemma LostRowsOnMap(m: map<Fingerprint, Entry>, torn: Option<Entry>, rows: seq<Entry>)
    requires rows != []
    ensures var held := if torn.Some? then m[torn.value.fingerprint := torn.value] else m;
            PutAll(m, rows[1..]) == PutAll(held, rows)
            <==> Restored(m, rows[0], rows[1..]) && (torn.Some? ==> Restored(m, torn.value, rows))
  {
    var first, rest := rows[0], rows[1..];
    var held := if torn.Some? then m[torn.value.fingerprint := torn.value] else m;
    var b := held[first.fingerprint := first];
    SameRowsSameMap(m, b, rest);
    AgreeOnFirst(m, held, first);
    if torn.Some? {
      HasRowHead(rows, torn.value.fingerprint);
      if torn.value.fingerprint != first.fingerprint {
        AgreeOnTorn(m, torn.value, first);
      }
    }
    if Restored(m, first, rest) && (torn.Some? ==> Restored(m, torn.value, rows)) {
      forall fp ensures AgreeAt(m, b, fp) || HasRow(rest, fp) {
      }
    }
    if forall fp :: AgreeAt(m, b, fp) || HasRow(rest, fp) {
      assert AgreeAt(m, b, first.fingerprint) || HasRow(rest, first.fingerprint);
      if torn.Some? {
        assert AgreeAt(m, b, torn.value.fingerprint) || HasRow(rest, torn.value.fingerprint);
      }
    }
  }

  lemma AgreeOnFirst(m: map<Fingerprint, Entry>, held: map<Fingerprint, Entry>, first: Entry)
    ensures AgreeAt(m, held[first.fingerprint := first], first.fingerprint) <==> HoldsEntry(m, first)
  {
  }

  lemma AgreeOnTorn(m: map<Fingerprint, Entry>, torn: Entry, first: Entry)
    requires torn.fingerprint != first.fingerprint
    ensures AgreeAt(m, m[torn.fingerprint := torn][first.fingerprint := first], torn.fingerprint)
            <==> HoldsEntry(m, torn)
  {
  }

  // Behind a torn line a batch loses its first row, and a torn row with it.
  // What is read back is the planner's map if and only if both are restored;
  // behind a torn comment or a torn piece that takes a later row.
  lemma TornLineLosesTheFirst(f: File, requests: seq<Request>)
    requires AllValid(requests)
    ensures var rows := PlanOf(Load(f), requests).rows;
            var m := AsMap(Replay([], f.lines));
            && (AsMap(Load(Recording(f, requests, false, true, Full).0)) == AllOnMap(AsMap(Load(f)), requests)
               <==> rows == [] || f.tail == None || f.tail == Some(Blank)
                    || (Restored(m, rows[0], rows[1..])
                        && (TornEntry(f).Some? ==> Restored(m, TornEntry(f).value, rows))))
            && (rows != [] && TornEntry(f) == None ==>
                 (Restored(m, rows[0], rows[1..]) <==> HasRow(rows[1..], rows[0].fingerprint)))
  {
    var rows := PlanOf(Load(f), requests).rows;
    var before := Replay([], f.lines);
    LedgerIsAMap(Load(f), requests);
    PlanIsReplay(Load(f), requests);
    PlannedRowsAreValid(Load(f), requests);
    ReplayOnMap(Load(f), rows);
    HeldOnMap(f);
    if rows == [] {
    } else if f.tail == None || f.tail == Some(Blank) {
      FileRefinesMap(f, requests);
    } else {
      LoadAfterAppend(f, Rows(rows));
      assert Rows(rows)[1..] == Rows(rows[1..]);
      ReplayOnMap(before, rows[1..]);
      LostRowsOnMap(AsMap(before), TornEntry(f), rows);
    }
    if rows != [] {
      FirstRowIsNew(Load(f), requests);
    }
  }

  lemma HeldOnMap(f: File)
    ensures var m := AsMap(Replay([], f.lines));
            AsMap(Load(f)) == if TornEntry(f).Some? then m[TornEntry(f).value.fingerprint := TornEntry(f).value] else m
  {
    if f.tail.Some? {
      LoadTail(f);
      if TornEntry(f).Some? {
        PutOnMap(Replay([], f.lines), TornEntry(f).value);
      }
    } else {
      assert AllLines(f) == f.lines;
    }
  }
}
