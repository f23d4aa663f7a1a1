/** The output filter of a check: one walk over the raw output, with a memo of
    the files its context test reads. */
module LineFilter {
  import opened Options
  import opened Text

  datatype Place = Place(path: string, line: int)

  // `dropPattern` is absent when it was not given or was rejected.
  datatype OutputFilter = OutputFilter(
    dropIfContains: seq<string>,
    dropPattern: Option<string -> bool>,
    keepOnlyIfContains: seq<string>,
    dropIfContextContains: seq<string>,
    contextWindow: int,
    maxLines: int)

  // Case-insensitive containment, the file:line prefix of a line, and the
  // lines of a project file; an unreadable one has none.
  datatype World = World(contains: (string, string) -> bool, locate: string -> Option<Place>,
      read: string -> seq<string>)

  // ------------------------------------------------------------ specification

  ghost predicate AnyNeedle(w: World, text: string, needles: seq<string>) {
    exists k :: 0 <= k < |needles| && w.contains(text, needles[k])
  }

  ghost predicate EveryNeedle(w: World, text: string, needles: seq<string>) {
    forall k :: 0 <= k < |needles| ==> w.contains(text, needles[k])
  }

  // A line of the file within the window of line `at` holds a needle.
  ghost predicate ContextHit(w: World, file: seq<string>, at: int, window: int, needles: seq<string>) {
    at > 0 && exists k :: 0 <= k < |file| && at - window <= k + 1 <= at + window && AnyNeedle(w, file[k], needles)
  }

  ghost predicate DroppedByContext(w: World, f: OutputFilter, line: string) {
    f.dropIfContextContains != [] && w.locate(line).Some?
    && var place := w.locate(line).value;
       ContextHit(w, w.read(place.path), place.line, f.contextWindow, f.dropIfContextContains)
  }

  ghost predicate Keeps(w: World, f: OutputFilter, line: string) {
    && line != ""
    && !AnyNeedle(w, line, f.dropIfContains)
    && !(f.dropPattern.Some? && f.dropPattern.value(line))
    && EveryNeedle(w, line, f.keepOnlyIfContains)
    && !DroppedByContext(w, f, line)
  }

  function StripCr(line: string): string {
    if line != "" && line[|line| - 1] == '\r' then line[..|line| - 1] else line
  }

  // The lines that pass, stripped, in order.
  ghost function Passing(w: World, f: OutputFilter, lines: seq<string>): seq<string>
    decreases |lines|
  {
    if lines == [] then []
    else (if Keeps(w, f, StripCr(lines[0])) then [StripCr(lines[0])] else []) + Passing(w, f, lines[1..])
  }

  ghost function Capped(lines: seq<string>, maxLines: int): seq<string> {
    if 0 < maxLines < |lines| then lines[..maxLines] else lines
  }

  // Split, strip, drop the empty, keep what passes, cut.
  ghost function Filtered(w: World, f: OutputFilter, raw: string): seq<string> {
    Capped(Passing(w, f, Split(raw)), f.maxLines)
  }

  // --------------------------------------------------------------- small loops

  method FindNeedle(w: World, text: string, needles: seq<string>) returns (found: bool)
    ensures found == AnyNeedle(w, text, needles)
  {
    var k := 0;
    while k < |needles|
      invariant 0 <= k <= |needles| && forall j | 0 <= j < k :: !w.contains(text, needles[j])
    {
      if w.contains(text, needles[k]) {
        return true;
      }
      k := k + 1;
    }
    found := false;
  }

  method HasEveryNeedle(w: World, text: string, needles: seq<string>) returns (all: bool)
    ensures all == EveryNeedle(w, text, needles)
  {
    var k := 0;
    while k < |needles|
      invariant 0 <= k <= |needles| && forall j | 0 <= j < k :: w.contains(text, needles[j])
    {
      if !w.contains(text, needles[k]) {
        return false;
      }
      k := k + 1;
    }
    all := true;
  }

  method ContextWindowContains(w: World, file: seq<string>, at: int, window: int, needles: seq<string>)
    returns (hit: bool)
    ensures hit == ContextHit(w, file, at, window, needles)
  {
    if file == [] || at <= 0 {
      return false;
    }
    var lo := if at - window > 1 then at - window else 1;
    var hi := if at + window < |file| then at + window else |file|;
    var i := lo;
    while i <= hi
      invariant lo <= i
      invariant forall k | 0 <= k < |file| && lo <= k + 1 < i && k + 1 <= hi :: !AnyNeedle(w, file[k], needles)
      decreases hi - i
    {
      var found := FindNeedle(w, file[i - 1], needles);
      if found {
        return true;
      }
      i := i + 1;
    }
    hit := false;
  }

  // ------------------------------------------------------------------ the memo

  // Every file in the cache is what a fresh read would give.
  ghost predicate Fresh(w: World, cache: map<string, seq<string>>) {
    forall path | path in cache :: cache[path] == w.read(path)
  }

  method PassesContext(w: World, f: OutputFilter, line: string, cache: map<string, seq<string>>)
    returns (passes: bool, cache': map<string, seq<string>>)
    requires Fresh(w, cache)
    ensures passes == !DroppedByContext(w, f, line)
    ensures Fresh(w, cache')
  {
    cache' := cache;
    if f.dropIfContextContains == [] || w.locate(line).None? {
      return true, cache;
    }
    var place := w.locate(line).value;
    if place.path !in cache' {
      cache' := cache'[place.path := w.read(place.path)];
    }
    var hit := ContextWindowContains(w, cache'[place.path], place.line, f.contextWindow, f.dropIfContextContains);
    passes := !hit;
  }

  method KeepLine(w: World, f: OutputFilter, line: string, cache: map<string, seq<string>>)
    returns (keep: bool, cache': map<string, seq<string>>)
    requires Fresh(w, cache) && line != ""
    ensures keep == Keeps(w, f, line) && Fresh(w, cache')
  {
    cache' := cache;
    var drop := FindNeedle(w, line, f.dropIfContains);
    if drop {
      return false, cache;
    }
    if f.dropPattern.Some? && f.dropPattern.value(line) {
      return false, cache;
    }
    if f.keepOnlyIfContains != [] {
      var all := HasEveryNeedle(w, line, f.keepOnlyIfContains);
      if !all {
        return false, cache;
      }
    }
    keep, cache' := PassesContext(w, f, line, cache);
  }

  // ------------------------------------------------------------------ the walk

  // `out` is what passed of `all` before `rest`.
  ghost predicate Walked(w: World, f: OutputFilter, all: seq<string>, rest: seq<string>, out: seq<string>) {
    Passing(w, f, all) == out + Passing(w, f, rest)
  }

  ghost function Kept(w: World, f: OutputFilter, line: string): seq<string> {
    if Keeps(w, f, StripCr(line)) then [StripCr(line)] else []
  }

  lemma WalkStep(w: World, f: OutputFilter, all: seq<string>, line: string, rest: seq<string>, out: seq<string>)
    requires Walked(w, f, all, [line] + rest, out)
    ensures Walked(w, f, all, rest, out + Kept(w, f, line))
  {
    var more := Passing(w, f, rest);
    assert ([line] + rest)[1..] == rest;
    assert Passing(w, f, [line] + rest) == Kept(w, f, line) + more;
    assert out + (Kept(w, f, line) + more) == out + Kept(w, f, line) + more;
  }

  lemma WalkStops(w: World, f: OutputFilter, all: seq<string>, rest: seq<string>, out: seq<string>)
    requires Walked(w, f, all, rest, out)
    requires f.maxLines > 0 ==> |out| <= f.maxLines
    requires rest == [] || (f.maxLines > 0 && |out| == f.maxLines)
    ensures out == Capped(Passing(w, f, all), f.maxLines)
  {
    if rest == [] {
      assert out + [] == out;
    }
  }

  // The line at hand, stripped; an empty one is passed over.
  method Consider(w: World, f: OutputFilter, line: string, cache: map<string, seq<string>>)
    returns (kept: seq<string>, cache': map<string, seq<string>>)
    requires Fresh(w, cache)
    ensures kept == Kept(w, f, line) && Fresh(w, cache')
  {
    var stripped := StripCr(line);
    if stripped == "" {
      return [], cache;
    }
    var keep;
    keep, cache' := KeepLine(w, f, stripped, cache);
    kept := if keep then [stripped] else [];
  }

  // The slice up to the next newline. The position always moves on.
  method NextLine(raw: string, pos: nat, ghost ahead: seq<string>)
    returns (line: string, next: nat, ghost after: seq<string>)
    requires pos <= |raw| && ahead == LinesFrom(raw, pos)
    ensures pos < next <= |raw| + 1
    ensures after == LinesFrom(raw, next) && ahead == [line] + after
  {
    var nl := LineEnd(raw, pos);
    line, next := raw[pos..nl], nl + 1;
    after := LinesFrom(raw, next);
    NextLineFrom(raw, pos, nl, ahead, after);
  }

  // The walk, with its early stop at `maxLines`.
  method Walk(w: World, f: OutputFilter, raw: string) returns (out: seq<string>)
    ensures out == Capped(Passing(w, f, Split(raw)), f.maxLines)
  {
    out := [];
    var cache: map<string, seq<string>> := map[];
    var pos := 0;
    ghost var all, rest := Split(raw), LinesFrom(raw, 0);
    assert all == rest by { assert raw[0..] == raw; }
    while pos <= |raw| && !(f.maxLines > 0 && |out| >= f.maxLines)
      invariant 0 <= pos <= |raw| + 1 && Fresh(w, cache)
      invariant rest == LinesFrom(raw, pos) && Walked(w, f, all, rest, out)
      invariant f.maxLines > 0 ==> |out| <= f.maxLines
      decreases |raw| + 1 - pos
    {
      var line, next;
      line, next, rest := NextLine(raw, pos, rest);
      WalkStep(w, f, all, line, rest, out);
      var kept;
      kept, cache := Consider(w, f, line, cache);
      out := out + kept;
      pos := next;
    }
    WalkStops(w, f, all, rest, out);
  }

  method ApplyFilter(w: World, f: OutputFilter, raw: string) returns (body: string, count: nat)
    ensures raw == "" ==> body == "" && count == 0
    ensures raw != "" ==> body == Join(Filtered(w, f, raw)) && count == |Filtered(w, f, raw)|
  {
    if raw == "" {
      return "", 0;
    }
    var out := Walk(w, f, raw);
    body, count := Join(out), |out|;
  }

  // -------------------------------------------------------------- what it means

  lemma {:induction false} PassingIsOneLine(w: World, f: OutputFilter, lines: seq<string>)
    requires AllOneLine(lines)
    ensures AllOneLine(Passing(w, f, lines))
    ensures forall k | 0 <= k < |Passing(w, f, lines)| :: Keeps(w, f, Passing(w, f, lines)[k])
    decreases |lines|
  {
    if lines != [] {
      assert OneLine(lines[0]) && OneLine(StripCr(lines[0]));
      PassingIsOneLine(w, f, lines[1..]);
    }
  }

  // The reported count is the number of lines of the body; splitting the body
  // gives the kept lines back, and every one of them passes.
  lemma BodyHasCountLines(w: World, f: OutputFilter, raw: string)
    ensures var kept := Filtered(w, f, raw);
            && (kept != [] ==> Split(Join(kept)) == kept)
            && (kept == [] ==> Join(kept) == "")
            && (f.maxLines > 0 ==> |kept| <= f.maxLines)
            && forall k | 0 <= k < |kept| :: Keeps(w, f, kept[k])
  {
    PassingIsOneLine(w, f, Split(raw));
    var kept := Filtered(w, f, raw);
    if kept != [] {
      SplitJoin(kept);
    }
  }

  // Filtering a filtered body again changes nothing, if and only if no kept
  // line still ends in a carriage return.
  lemma FilterAgain(w: World, f: OutputFilter, raw: string)
    ensures Filtered(w, f, Join(Filtered(w, f, raw))) == Filtered(w, f, raw)
       <==> forall k | 0 <= k < |Filtered(w, f, raw)| :: StripCr(Filtered(w, f, raw)[k]) == Filtered(w, f, raw)[k]
  {
    var kept := Filtered(w, f, raw);
    BodyHasCountLines(w, f, raw);
    if kept == [] {
      SplitOne("");
      assert Passing(w, f, [""]) == Kept(w, f, "") + Passing(w, f, []);
    } else {
      PassingAgain(w, f, kept);
      PassingIsNoLonger(w, f, kept);
    }
  }

  lemma {:induction false} PassingIsNoLonger(w: World, f: OutputFilter, lines: seq<string>)
    ensures |Passing(w, f, lines)| <= |lines|
    decreases |lines|
  {
    if lines != [] {
      PassingIsNoLonger(w, f, lines[1..]);
    }
  }

  // Lines that pass all pass again, but for a carriage return at the end.
  lemma {:induction false} PassingAgain(w: World, f: OutputFilter, lines: seq<string>)
    requires forall k | 0 <= k < |lines| :: Keeps(w, f, lines[k])
    ensures Passing(w, f, lines) == lines <==> forall k | 0 <= k < |lines| :: StripCr(lines[k]) == lines[k]
    decreases |lines|
  {
    if lines != [] {
      var rest := lines[1..];
      PassingAgain(w, f, rest);
      PassingIsNoLonger(w, f, rest);
      assert Passing(w, f, lines) == Kept(w, f, lines[0]) + Passing(w, f, rest);
      HeadAndRest(lines, Kept(w, f, lines[0]), Passing(w, f, rest));
    }
  }

  lemma HeadAndRest(lines: seq<string>, first: seq<string>, rest: seq<string>)
    requires lines != [] && |first| <= 1 && |rest| < |lines|
    ensures first + rest == lines <==> first == [lines[0]] && rest == lines[1..]
  {
    if first + rest == lines {
      assert |first| == 1 && (first + rest)[0] == first[0] && (first + rest)[1..] == rest;
    }
  }

  const KEEP_ALL := OutputFilter([], None, [], [], 0, 0)

  // A line that ends in two carriage returns loses one at each pass.
  lemma DoubleCrIsEaten(w: World)
    ensures Filtered(w, KEEP_ALL, "a\r\r\n") == ["a\r"] && Filtered(w, KEEP_ALL, Join(["a\r"])) == ["a"]
  {
    assert "a\r\r\n" == "a\r\r" + "\n" + "";
    SplitCons("a\r\r", "");
    SplitOne("");
    SplitOne("a\r");
    PassingTwo(w, "a\r\r", "");
    AllAreKept(w, "a\r\r");
    AllAreKept(w, "a\r");
    AllAreKept(w, "");
    assert Passing(w, KEEP_ALL, ["a\r"]) == Kept(w, KEEP_ALL, "a\r") + Passing(w, KEEP_ALL, []);
  }

  lemma AllAreKept(w: World, line: string)
    ensures Kept(w, KEEP_ALL, line) == if StripCr(line) == "" then [] else [StripCr(line)]
    ensures line == "a\r\r" ==> StripCr(line) == "a\r"
    ensures line == "a\r" ==> StripCr(line) == "a"
  {
  }

  lemma PassingTwo(w: World, a: string, b: string)
    ensures Passing(w, KEEP_ALL, [a, b]) == Kept(w, KEEP_ALL, a) + Kept(w, KEEP_ALL, b)
  {
    assert [a, b][1..] == [b] && [b][1..] == [];
    assert Passing(w, KEEP_ALL, [b]) == Kept(w, KEEP_ALL, b) + Passing(w, KEEP_ALL, []);
  }

  // ------------------------------------------------------------ CR LF and LF

  // The text with CR LF line ends.
  function CrLf(s: string): string {
    if s == "" then "" else (if s[0] == '\n' then "\r\n" else [s[0]]) + CrLf(s[1..])
  }

  function WithCr(lines: seq<string>): seq<string> {
    if |lines| <= 1 then lines else [lines[0] + "\r"] + WithCr(lines[1..])
  }

  lemma {:induction false} CrLfOfLine(line: string, rest: string)
    requires OneLine(line)
    ensures CrLf(line + rest) == line + CrLf(rest)
  {
    if line == "" {
      assert "" + rest == rest;
    } else {
      assert (line + rest)[1..] == line[1..] + rest;
      CrLfOfLine(line[1..], rest);
    }
  }

  lemma {:induction false} SplitCrLf(raw: string)
    ensures Split(CrLf(raw)) == WithCr(Split(raw))
    decreases |raw|
  {
    var e := LineEnd(raw, 0);
    var line := raw[..e];
    assert OneLine(line);
    if e == |raw| {
      assert line == raw == raw + "";
      CrLfOfLine(raw, "");
      SplitOne(raw);
    } else {
      var rest := raw[e + 1..];
      CrLfOfLines(raw, line, rest);
      SplitCons(line + "\r", CrLf(rest));
      SplitCrLf(rest);
      assert Split(raw) == [line] + Split(rest);
    }
  }

  lemma CrLfOfLines(raw: string, line: string, rest: string)
    requires OneLine(line) && |line| < |raw| && raw[..|line|] == line && raw[|line|] == '\n'
            && raw[|line| + 1..] == rest
    ensures CrLf(raw) == (line + "\r") + "\n" + CrLf(rest)
  {
    assert raw == line + ("\n" + rest) && ("\n" + rest)[1..] == rest;
    CrLfOfLine(line, "\n" + rest);
  }

  // No newline of the text stands behind a carriage return.
  ghost predicate PlainEnds(lines: seq<string>) {
    forall k | 0 <= k < |lines| - 1 :: StripCr(lines[k]) == lines[k]
  }

  lemma {:induction false} PassingWithCr(w: World, f: OutputFilter, lines: seq<string>)
    requires PlainEnds(lines)
    ensures Passing(w, f, WithCr(lines)) == Passing(w, f, lines)
    decreases |lines|
  {
    if |lines| >= 2 {
      assert StripCr(lines[0] + "\r") == lines[0] == StripCr(lines[0]);
      PassingWithCr(w, f, lines[1..]);
    }
  }

  function Size(lines: seq<string>): nat {
    if lines == [] then 0 else |lines[0]| + Size(lines[1..])
  }

  // What passes when nothing is filtered, in characters.
  lemma {:induction false} SizeOfPassing(w: World, lines: seq<string>)
    ensures lines != [] ==>
      Size(Passing(w, KEEP_ALL, lines)) == |StripCr(lines[0])| + Size(Passing(w, KEEP_ALL, lines[1..]))
  {
    if lines != [] {
      var rest := Passing(w, KEEP_ALL, lines[1..]);
      var line := StripCr(lines[0]);
      if Keeps(w, KEEP_ALL, line) {
        assert ([line] + rest)[1..] == rest;
      } else {
        assert line == "" && [] + rest == rest;
      }
    }
  }

  lemma {:induction false} CrCostsSize(w: World, lines: seq<string>)
    ensures Size(Passing(w, KEEP_ALL, WithCr(lines))) >= Size(Passing(w, KEEP_ALL, lines))
    ensures !PlainEnds(lines) ==> Size(Passing(w, KEEP_ALL, WithCr(lines))) > Size(Passing(w, KEEP_ALL, lines))
    decreases |lines|
  {
    if |lines| >= 2 {
      var rest := lines[1..];
      CrCostsSize(w, rest);
      SizeOfPassing(w, lines);
      SizeOfPassing(w, WithCr(lines));
      assert WithCr(lines)[1..] == WithCr(rest) && StripCr(WithCr(lines)[0]) == lines[0];
      if PlainEnds(rest) && StripCr(lines[0]) == lines[0] {
        assert PlainEnds(lines);
      }
    }
  }

  // CR LF and LF line ends give the same lines under every filter, unless an
  // LF of the text had a carriage return in front already; then they differ
  // when nothing is filtered out.
  lemma CrLfIsLf(w: World, f: OutputFilter, raw: string)
    ensures PlainEnds(Split(raw)) ==> Filtered(w, f, CrLf(raw)) == Filtered(w, f, raw)
    ensures Filtered(w, KEEP_ALL, CrLf(raw)) == Filtered(w, KEEP_ALL, raw) <==> PlainEnds(Split(raw))
  {
    SplitCrLf(raw);
    if PlainEnds(Split(raw)) {
      PassingWithCr(w, f, Split(raw));
      PassingWithCr(w, KEEP_ALL, Split(raw));
    } else {
      CrCostsSize(w, Split(raw));
    }
  }
}
