/** Which lines of an output a filter leaves, told line by line. */
module FilterLines {
  import opened LineFilter
  import opened Options
  import opened Subsequences
  import opened Text

  // The text without one carriage return at its end.
  predicate Stripped(line: string, text: string) {
    if |line| > 0 && line[|line| - 1] == '\r' then text + "\r" == line else text == line
  }

  // Line k of the file is within the window of line `at`, and holds text n.
  predicate NearAt(w: World, f: OutputFilter, file: seq<string>, at: int, k: int, n: int) {
    && at >= 1 && 0 <= k < |file| && 0 <= n < |f.dropIfContextContains|
    && at - f.contextWindow <= k + 1 <= at + f.contextWindow
    && w.contains(file[k], f.dropIfContextContains[n])
  }

  // The text names a line of a file, and near it a line holds one of the texts.
  ghost predicate Near(w: World, f: OutputFilter, text: string) {
    match w.locate(text)
    case None => false
    case Some(place) => exists k, n :: NearAt(w, f, w.read(place.path), place.line, k, n)
  }

  // No text drops it, the pattern does not, no needed text is missing, and
  // nothing near its place drops it.
  ghost predicate Survives(w: World, f: OutputFilter, text: string) {
    && |text| > 0
    && (forall k | 0 <= k < |f.dropIfContains| :: !w.contains(text, f.dropIfContains[k]))
    && (match f.dropPattern case None => true case Some(matches) => !matches(text))
    && (forall k | 0 <= k < |f.keepOnlyIfContains| :: w.contains(text, f.keepOnlyIfContains[k]))
    && !Near(w, f, text)
  }

  lemma KeepsIsSurvives(w: World, f: OutputFilter, text: string)
    ensures Keeps(w, f, text) <==> Survives(w, f, text)
  {
    ContextIsNear(w, f, text);
  }

  lemma ContextIsNear(w: World, f: OutputFilter, text: string)
    ensures DroppedByContext(w, f, text) <==> Near(w, f, text)
  {
    if w.locate(text).Some? {
      var place := w.locate(text).value;
      HitIsNear(w, w.read(place.path), place.line, f);
    }
  }

  lemma HitIsNear(w: World, file: seq<string>, at: int, f: OutputFilter)
    ensures ContextHit(w, file, at, f.contextWindow, f.dropIfContextContains)
       <==> exists k, n :: NearAt(w, f, file, at, k, n)
  {
    var needles := f.dropIfContextContains;
    if ContextHit(w, file, at, f.contextWindow, needles) {
      var k :| 0 <= k < |file| && at - f.contextWindow <= k + 1 <= at + f.contextWindow
          && AnyNeedle(w, file[k], needles);
      var n :| 0 <= n < |needles| && w.contains(file[k], needles[n]);
      assert NearAt(w, f, file, at, k, n);
    }
    if k, n :| NearAt(w, f, file, at, k, n) {
      assert AnyNeedle(w, file[k], needles);
    }
  }

  // The lines that survive, unstripped, as often as they are there, in order;
  // and what is passed on of them.
  lemma {:induction false} PassingTells(w: World, f: OutputFilter, lines: seq<string>, line: string)
    returns (kept: seq<string>)
    ensures PassTells(w, f, lines, line, kept)
    decreases |lines|
  {
    kept := [];
    if lines != [] {
      var rest := PassingTells(w, f, lines[1..], line);
      assert [lines[0]] + lines[1..] == lines;
      kept := OneMoreLine(w, f, lines[0], lines[1..], line, rest);
    }
  }

  ghost predicate PassTells(w: World, f: OutputFilter, lines: seq<string>, line: string, kept: seq<string>) {
    && InOrder(kept, lines)
    && multiset(kept)[line] == (if Survives(w, f, StripCr(line)) then multiset(lines)[line] else 0)
    && AllStripped(kept, Passing(w, f, lines))
  }

  ghost predicate AllStripped(lines: seq<string>, texts: seq<string>) {
    |lines| == |texts| && forall k | 0 <= k < |lines| :: Stripped(lines[k], texts[k])
  }

  lemma StrippedCons(line: string, text: string, lines: seq<string>, texts: seq<string>)
    requires Stripped(line, text) && AllStripped(lines, texts)
    ensures AllStripped([line] + lines, [text] + texts)
  {
  }

  lemma OneMoreLine(w: World, f: OutputFilter, first: string, lines: seq<string>, line: string, rest: seq<string>)
    returns (kept: seq<string>)
    requires PassTells(w, f, lines, line, rest)
    ensures PassTells(w, f, [first] + lines, line, kept)
  {
    var all := [first] + lines;
    assert all[1..] == lines;
    var taken := Survives(w, f, StripCr(first));
    KeepsIsSurvives(w, f, StripCr(first));
    InOrderCons(rest, lines, first, taken);
    StripIs(first);
    kept := if taken then [first] + rest else rest;
    var passing := Passing(w, f, lines);
    StrippedCons(first, StripCr(first), rest, passing);
    assert Passing(w, f, all) == if taken then [StripCr(first)] + passing else passing;
  }

  lemma StripIs(line: string)
    ensures Stripped(line, StripCr(line))
    ensures forall text | Stripped(line, text) :: text == StripCr(line)
  {
    forall text | Stripped(line, text) ensures text == StripCr(line) {
      if |line| > 0 && line[|line| - 1] == '\r' {
        assert (text + "\r")[..|text|] == text;
      }
    }
  }

  // What a filter leaves of an output: of its lines, each without one carriage
  // return, those that survive, in order; the first of them up to the limit.
  lemma FilterTells(w: World, f: OutputFilter, raw: string, line: string, text: string) returns (kept: seq<string>)
    requires Stripped(line, text)
    ensures var out := Filtered(w, f, raw);
            && InOrder(kept, Split(raw))
            && multiset(kept)[line] == (if Survives(w, f, text) then multiset(Split(raw))[line] else 0)
            && |out| == (if 0 < f.maxLines < |kept| then f.maxLines else |kept|)
            && forall k | 0 <= k < |out| :: Stripped(kept[k], out[k])
  {
    StripIs(line);
    kept := PassingTells(w, f, Split(raw), line);
  }
}
