/** Newline-separated text: splitting into lines and joining them again.
    `Split` keeps empty parts, as QString::split does by default, so a text that
    ends in a newline has an empty last part and the empty text has one part.
    `Join` is QStringList::join with a newline. The two undo each other: joining
    the parts of a text gives the text, and splitting what was joined from parts
    without newlines gives the parts. A walk from newline to newline reads the
    same lines as splitting at once. */
module Text {

  ghost predicate OneLine(s: string) {
    '\n' !in s
  }

  ghost predicate AllOneLine(lines: seq<string>) {
    forall k | 0 <= k < |lines| :: OneLine(lines[k])
  }

  // The first newline at or after `from`, or the end of the text.
  function LineEnd(s: string, from: nat): (e: nat)
    requires from <= |s|
    ensures from <= e <= |s|
    ensures forall k | from <= k < e :: s[k] != '\n'
    ensures e < |s| ==> s[e] == '\n'
    decreases |s| - from
  {
    if from == |s| || s[from] == '\n' then from else LineEnd(s, from + 1)
  }

  function Split(s: string): (lines: seq<string>)
    ensures |lines| >= 1
    ensures AllOneLine(lines)
    decreases |s|
  {
    var e := LineEnd(s, 0);
    if e == |s| then [s] else [s[..e]] + Split(s[e + 1..])
  }

  function Join(lines: seq<string>): string {
    if |lines| == 0 then ""
    else if |lines| == 1 then lines[0]
    else lines[0] + "\n" + Join(lines[1..])
  }

  lemma {:induction false} JoinSplit(s: string)
    ensures Join(Split(s)) == s
    decreases |s|
  {
    var e := LineEnd(s, 0);
    if e < |s| {
      JoinSplit(s[e + 1..]);
      assert Split(s)[1..] == Split(s[e + 1..]);
      assert s == s[..e] + "\n" + s[e + 1..];
    }
  }

  // A line glued in front of a text becomes its first part.
  lemma SplitCons(line: string, rest: string)
    requires OneLine(line)
    ensures Split(line + "\n" + rest) == [line] + Split(rest)
  {
    var s := line + "\n" + rest;
    assert s[|line|] == '\n';
    assert forall k | 0 <= k < |line| :: s[k] == line[k] && line[k] in line;
    assert LineEnd(s, 0) == |line|;
    assert s[..|line|] == line && s[|line| + 1..] == rest;
  }

  lemma SplitOne(line: string)
    requires OneLine(line)
    ensures Split(line) == [line]
  {
    assert forall k | 0 <= k < |line| :: line[k] in line;
  }

  lemma {:induction false} SplitJoin(lines: seq<string>)
    requires |lines| >= 1 && AllOneLine(lines)
    ensures Split(Join(lines)) == lines
  {
    assert OneLine(lines[0]);
    if |lines| == 1 {
      SplitOne(lines[0]);
    } else {
      SplitJoin(lines[1..]);
      SplitCons(lines[0], Join(lines[1..]));
    }
  }

  lemma {:induction false} JoinConcat(a: seq<string>, b: seq<string>)
    requires |a| >= 1 && |b| >= 1
    ensures Join(a + b) == Join(a) + "\n" + Join(b)
  {
    if |a| == 1 {
      assert (a + b)[1..] == b;
    } else {
      JoinConcat(a[1..], b);
      assert (a + b)[1..] == a[1..] + b;
    }
  }

  // Text t stands in s at position k.
  predicate OccursAt(s: string, t: string, k: nat) {
    k + |t| <= |s| && s[k..k + |t|] == t
  }

  // Line of position k, counted from 1.
  function LineAt(s: string, k: nat): nat
    requires k <= |s|
  {
    if k == 0 then 1 else LineAt(s, k - 1) + (if s[k - 1] == '\n' then 1 else 0)
  }

  // Start of the line that position k is on.
  function LineStart(s: string, k: nat): (b: nat)
    requires k <= |s|
    ensures b <= k
    ensures b == 0 || s[b - 1] == '\n'
    ensures forall j | b <= j < k :: s[j] != '\n'
  {
    if k == 0 || s[k - 1] == '\n' then k else LineStart(s, k - 1)
  }

  function LineTextAt(s: string, k: nat): string
    requires k <= |s|
  {
    s[LineStart(s, k)..LineEnd(s, k)]
  }

  // The counter goes on from the last occurrence instead of starting over.
  method CountLinesTo(s: string, scanned: nat, line: nat, k: nat) returns (line': nat)
    requires scanned <= k <= |s| && line == LineAt(s, scanned)
    ensures line' == LineAt(s, k)
  {
    line' := line;
    var i := scanned;
    while i < k
      invariant scanned <= i <= k && line' == LineAt(s, i)
    {
      if s[i] == '\n' {
        line' := line' + 1;
      }
      i := i + 1;
    }
  }

  method LineBounds(s: string, k: nat) returns (ls: nat, le: nat)
    requires k <= |s|
    ensures ls == LineStart(s, k) && le == LineEnd(s, k)
  {
    ls, le := k, k;
    while ls > 0 && s[ls - 1] != '\n'
      invariant 0 <= ls <= k && LineStart(s, k) == LineStart(s, ls)
    {
      ls := ls - 1;
    }
    while le < |s| && s[le] != '\n'
      invariant k <= le <= |s| && LineEnd(s, k) == LineEnd(s, le)
    {
      le := le + 1;
    }
  }

  // What a text holds from a position on, as lines; nothing past its end.
  ghost function LinesFrom(s: string, pos: nat): seq<string> {
    if pos <= |s| then Split(s[pos..]) else []
  }

  // Walking a text line by line is splitting it.
  lemma NextLineFrom(s: string, pos: nat, nl: nat, lines: seq<string>, after: seq<string>)
    requires pos <= |s| && nl == LineEnd(s, pos)
    requires lines == LinesFrom(s, pos) && after == LinesFrom(s, nl + 1)
    ensures lines == [s[pos..nl]] + after
  {
    var line := s[pos..nl];
    assert OneLine(line);
    if nl < |s| {
      var rest := s[nl + 1..];
      assert s[pos..] == line + "\n" + rest by { CutAtNewline(s, pos, nl); }
      SplitCons(line, rest);
    } else {
      SplitOne(line);
      assert s[pos..] == line;
    }
  }

  lemma CutAtNewline(s: string, pos: nat, nl: nat)
    requires pos <= nl < |s| && s[nl] == '\n'
    ensures s[pos..] == s[pos..nl] + "\n" + s[nl + 1..]
  {
  }
}
