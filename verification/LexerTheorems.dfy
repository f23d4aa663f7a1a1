/** What the scanner's verdict means: exactly when it speaks of physical lines,
    that later lines never change it, and that raw strings are opaque. */
module LexerTheorems {
  import opened Lexer

  // ------------------------------------------------ physical against scanned

  // Code read behind a newline that a string escape swallowed.
  ghost predicate CodeBehindSwallowedNewline(d: Dialect, s: string) {
    exists p: nat, q: nat :: p < q && SwallowedNewline(d, s, p) && CodeAt(d, s, q)
  }

  lemma {:induction false} ScannerLags(d: Dialect, s: string, q: nat)
    requires q <= |s|
    ensures ScannedLine(d, s, q) <= PhysicalLine(s, q)
    ensures ScannedLine(d, s, q) < PhysicalLine(s, q) <==> exists p: nat :: p < q && SwallowedNewline(d, s, p)
  {
    if q > 0 {
      ScannerLags(d, s, q - 1);
    }
  }

  lemma {:induction false} LastCode(d: Dialect, s: string, q: nat) returns (last: nat)
    requires CodeAt(d, s, q)
    ensures q <= last && CodeAt(d, s, last)
    ensures forall k: nat :: CodeAt(d, s, k) ==> k <= last
    decreases |s| - q
  {
    if k: nat :| q < k && CodeAt(d, s, k) {
      last := LastCode(d, s, k);
    } else {
      last := q;
    }
  }

  // The verdict is about physical lines, for every line, exactly when no code
  // follows a swallowed newline.
  lemma ScanIsPhysical(d: Dialect, s: string)
    ensures (forall line: int :: ScannedLineHasCode(d, s, line) == PhysicalLineHasCode(d, s, line))
       <==> !CodeBehindSwallowedNewline(d, s)
  {
    if CodeBehindSwallowedNewline(d, s) {
      var p: nat, q: nat :| p < q && SwallowedNewline(d, s, p) && CodeAt(d, s, q);
      var last := LastCode(d, s, q);
      ScannerLags(d, s, last);
      var line := PhysicalLine(s, last);
      if k: nat :| CodeAt(d, s, k) && ScannedLine(d, s, k) == line {
        ScannedLineIsMonotone(d, s, k, last);
      }
      assert !ScannedLineHasCode(d, s, line) && PhysicalLineHasCode(d, s, line);
    } else {
      forall q: nat | CodeAt(d, s, q) ensures ScannedLine(d, s, q) == PhysicalLine(s, q) {
        ScannerLags(d, s, q);
      }
    }
  }

  // A two-line C source whose second line has code that the scanner reports
  // on the first: a quote, an escaped newline, a quote, an identifier.
  lemma SwallowedNewlineShiftsLines(word: char -> bool)
    ensures var d := Dialect(CStyle, false, word);
            var s := ['"', '\\', '\n', '"', 'x'];
            PhysicalLineHasCode(d, s, 2) && !ScannedLineHasCode(d, s, 2)
  {
    var d := Dialect(CStyle, false, word);
    var s := ['"', '\\', '\n', '"', 'x'];
    Openers(s, 0);
    assert TokenAt(d, s, 0) == Quoted(1, '"');
    assert ClassOf(d, s, 2) == Swallowed;
    assert ClassInString(d, s, '"', 1, 4) == ClassInString(d, s, '"', 3, 4);
    assert CodeAt(d, s, 4);
    assert PhysicalLine(s, 4) == 2 by {
      assert PhysicalLine(s, 1) == 1 && PhysicalLine(s, 2) == 1 && PhysicalLine(s, 3) == 2;
    }
    var last := LastCode(d, s, 4);
    ScannerLags(d, s, 4);
    if k: nat :| CodeAt(d, s, k) && ScannedLine(d, s, k) == 2 {
      ScannedLineIsMonotone(d, s, k, 4);
    }
  }

  // ------------------------------------------------------------ later lines

  ghost predicate EndsLine(p: string) {
    |p| > 0 && p[|p| - 1] == '\n'
  }

  lemma AtLocal(p: string, x: string, i: nat, text: string)
    requires EndsLine(p) && i < |p| && (NoNewline(text) || text == "\n")
    ensures At(p + x, i, text) == At(p, i, text)
  {
    if i + |text| <= |p| {
      assert (p + x)[i..i + |text|] == p[i..i + |text|];
    } else if NoNewline(text) && i + |text| <= |p + x| {
      assert (p + x)[i..i + |text|][|p| - 1 - i] == '\n' != text[|p| - 1 - i];
    }
  }

  lemma {:induction false} BehindLocal(p: string, x: string, close: string, i: nat)
    requires EndsLine(p) && i <= |p| && close != "" && (NoNewline(close) || close == "\n")
    ensures Behind(p + x, close, i) == Behind(p, close, i) || (Behind(p, close, i) == |p| <= Behind(p + x, close, i))
    decreases |p| - i
  {
    if i < |p| {
      AtLocal(p, x, i, close);
      BehindStep(p, close, i);
      BehindStep(p + x, close, i);
      BehindLocal(p, x, close, i + 1);
    }
  }

  lemma RawOpenLocal(p: string, x: string, b: nat)
    requires EndsLine(p) && b < |p|
    ensures RawOpens(p + x, b) == RawOpens(p, b)
    ensures RawOpens(p, b) ==> RawOpen(p + x, b) == RawOpen(p, b)
  {
    var s := p + x;
    if RawOpens(s, b) {
      var k := RawOpen(s, b);
      assert !DelimChar('\n') && s[|p| - 1] == '\n';
      assert k < |p|;
      assert RawOpensAt(p, b, k) by {
        assert forall m | b <= m < k :: p[m] == s[m];
      }
      RawOpenIsUnique(p, b, k, RawOpen(p, b));
    }
    if RawOpens(p, b) {
      assert RawOpensAt(s, b, RawOpen(p, b)) by {
        assert forall m | b <= m < RawOpen(p, b) :: p[m] == s[m];
      }
    }
  }

  lemma RawPrefixLocal(d: Dialect, p: string, x: string, r: nat)
    requires r < |p|
    ensures RawPrefixAt(d, p + x, r) == RawPrefixAt(d, p, r)
  {
    var s := p + x;
    assert forall k | 0 <= k <= r :: s[k] == p[k];
    forall b: nat
      ensures RunFrom(d, s, b, r) == RunFrom(d, p, b, r)
    {
    }
    assert forall b: nat | RunFrom(d, p, b, r) :: s[b..r + 1] == p[b..r + 1];
  }

  lemma CStyleTokenLocal(d: Dialect, p: string, x: string, i: nat)
    requires EndsLine(p) && i < |p| && d.syntax == CStyle
    ensures TokenAt(d, p + x, i) == TokenAt(d, p, i)
  {
    AtLocal(p, x, i, "//");
    AtLocal(p, x, i, "/*");
    if p[i] == '"' {
      RawOpenLocal(p, x, i + 1);
      if i > 0 {
        RawPrefixLocal(d, p, x, i - 1);
      }
      if RawOpens(p, i + 1) {
        var k := RawOpen(p, i + 1);
        assert (p + x)[i + 1..k] == p[i + 1..k];
      }
    }
  }

  lemma TokenLocal(d: Dialect, p: string, x: string, i: nat)
    requires EndsLine(p) && i < |p|
    ensures TokenAt(d, p + x, i) == TokenAt(d, p, i)
  {
    match d.syntax
    case CStyle => CStyleTokenLocal(d, p, x, i);
    case Lua =>
      AtLocal(p, x, i, "--");
      AtLocal(p, x, i, "--[[");
      AtLocal(p, x, i, "[[");
    case Hash =>
      if IsQuote(p[i]) {
        AtLocal(p, x, i, [p[i], p[i], p[i]]);
      }
  }

  lemma ClosingText(d: Dialect, s: string, i: nat)
    requires i < |s| && TokenAt(d, s, i).Opaque?
    ensures var close := TokenAt(d, s, i).close; NoNewline(close) || close == "\n"
  {
  }

  lemma {:induction false} ClassLocal(d: Dialect, p: string, x: string, i: nat, q: nat)
    requires EndsLine(p) && i <= q < |p|
    ensures ClassFrom(d, p + x, i, q) == ClassFrom(d, p, i, q)
    decreases |p| - i, 1
  {
    if i < q {
      TokenLocal(d, p, x, i);
      match TokenAt(d, p, i)
      case Plain => ClassLocal(d, p, x, i + 1, q);
      case Opaque(body, close) =>
        ClosingText(d, p, i);
        BehindLocal(p, x, close, body);
        if Behind(p, close, body) <= q {
          ClassLocal(d, p, x, Behind(p, close, body), q);
        }
      case Quoted(body, quote) => ClassInStringLocal(d, p, x, quote, body, q);
    }
  }

  lemma {:induction false} ClassInStringLocal(d: Dialect, p: string, x: string, quote: char, i: nat, q: nat)
    requires EndsLine(p)
    requires i <= |p|
    ensures i <= q < |p| ==> ClassInString(d, p + x, quote, i, q) == ClassInString(d, p, quote, i, q)
    decreases |p| - i, 0
  {
    if i < q < |p| {
      if p[i] == '\\' {
        ClassInStringLocal(d, p, x, quote, i + 2, q);
      } else if p[i] == quote {
        ClassLocal(d, p, x, i + 1, q);
      } else {
        ClassInStringLocal(d, p, x, quote, i + 1, q);
      }
    }
  }

  lemma CodeLocal(d: Dialect, p: string, x: string, q: nat)
    requires EndsLine(p) && q < |p|
    ensures CodeAt(d, p + x, q) == CodeAt(d, p, q)
    ensures SwallowedNewline(d, p + x, q) == SwallowedNewline(d, p, q)
  {
    ClassLocal(d, p, x, 0, q);
  }

  lemma {:induction false} ScannedLineLocal(d: Dialect, p: string, x: string, q: nat)
    requires EndsLine(p) && q <= |p|
    ensures ScannedLine(d, p + x, q) == ScannedLine(d, p, q)
  {
    if q > 0 {
      ScannedLineLocal(d, p, x, q - 1);
      CodeLocal(d, p, x, q - 1);
    }
  }

  // Once a line is closed, no text behind it changes its verdict.
  lemma LaterLinesDoNotMatter(d: Dialect, p: string, x: string, y: string, line: int)
    requires EndsLine(p) && line < ScannedLine(d, p, |p|)
    ensures ScannedLineHasCode(d, p + x, line) == ScannedLineHasCode(d, p + y, line)
  {
    ClosedLine(d, p, x, line);
    ClosedLine(d, p, y, line);
  }

  lemma ClosedLine(d: Dialect, p: string, x: string, line: int)
    requires EndsLine(p) && line < ScannedLine(d, p, |p|)
    ensures ScannedLineHasCode(d, p + x, line) == ScannedLineHasCode(d, p, line)
  {
    var s := p + x;
    ScannedLineLocal(d, p, x, |p|);
    forall q: nat | q < |s|
      ensures q < |p| ==> CodeAt(d, s, q) == CodeAt(d, p, q) && ScannedLine(d, s, q) == ScannedLine(d, p, q)
      ensures q >= |p| ==> ScannedLine(d, s, q) > line
    {
      if q < |p| {
        CodeLocal(d, p, x, q);
        ScannedLineLocal(d, p, x, q);
      } else {
        ScannedLineIsMonotone(d, s, |p|, q);
      }
    }
  }

  // -------------------------------------------------------------- raw strings

  function RawClose(s: string, i: nat, k: nat): string
    requires i < k <= |s|
  {
    ")" + s[i + 1..k] + "\""
  }

  // A raw string read in code hides everything up to its first )delim" :
  // quotes, escapes, comment openers and newlines inside do not end it.
  lemma RawStringIsOpaque(d: Dialect, s: string, i: nat, k: nat, q: nat)
    requires d.syntax == CStyle && i < q < |s| && ClassOf(d, s, i) == InCode
    requires s[i] == '"' && RawQuoteAt(d, s, i) && RawOpensAt(s, i + 1, k)
    requires forall m: nat | k < m && m + |RawClose(s, i, k)| <= q :: !At(s, m, RawClose(s, i, k))
    ensures ClassOf(d, s, q) == Hidden && !CodeAt(d, s, q)
  {
    var close := RawClose(s, i, k);
    RawToken(d, s, i, k);
    HiddenUntil(s, close, k + 1, q);
    assert ClassOf(d, s, q) == ClassFrom(d, s, i, q) by { ClassThrough(d, s, 0, i, q); }
  }

  lemma RawToken(d: Dialect, s: string, i: nat, k: nat)
    requires d.syntax == CStyle && i < |s| && s[i] == '"' && RawQuoteAt(d, s, i) && RawOpensAt(s, i + 1, k)
    ensures TokenAt(d, s, i) == Opaque(k + 1, RawClose(s, i, k))
  {
    RawOpenIsUnique(s, i + 1, k, RawOpen(s, i + 1));
    Openers(s, i);
  }

  lemma {:induction false} HiddenUntil(s: string, close: string, i: nat, q: nat)
    requires close != "" && i <= |s| && q < |s|
    requires forall m: nat | i <= m && m + |close| <= q :: !At(s, m, close)
    ensures q < Behind(s, close, i)
    decreases |s| - i
  {
    if i <= q && !At(s, i, close) {
      HiddenUntil(s, close, i + 1, q);
    }
  }

  // Reading in code restarts at every character read in code.
  lemma {:induction false} ClassThrough(d: Dialect, s: string, j: nat, i: nat, q: nat)
    requires j <= i <= q < |s| && ClassFrom(d, s, j, i) == InCode
    ensures ClassFrom(d, s, j, q) == ClassFrom(d, s, i, q)
    decreases |s| - j, 1
  {
    if j < i {
      match TokenAt(d, s, j)
      case Plain => ClassThrough(d, s, j + 1, i, q);
      case Opaque(body, close) => ClassThrough(d, s, Behind(s, close, body), i, q);
      case Quoted(body, quote) => StringThrough(d, s, quote, body, i, q);
    }
  }

  lemma {:induction false} StringThrough(d: Dialect, s: string, quote: char, j: nat, i: nat, q: nat)
    requires j <= i <= q < |s| && ClassInString(d, s, quote, j, i) == InCode
    ensures ClassInString(d, s, quote, j, q) == ClassFrom(d, s, i, q)
    decreases |s| - j, 0
  {
    if s[j] == '\\' {
      StringThrough(d, s, quote, j + 2, i, q);
    } else if s[j] == quote {
      ClassThrough(d, s, j + 1, i, q);
    } else {
      StringThrough(d, s, quote, j + 1, i, q);
    }
  }
}
