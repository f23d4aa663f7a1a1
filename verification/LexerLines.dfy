/** What the scanner takes for code, in characters: which text opens and closes
    a comment or a string in which syntax, and what on a line counts. */
module LexerLines {
  import opened Chars
  import opened Lexer
  import opened LexerTheorems

  // ----------------------------------------------------------- which syntax

  const SHELL_LIKE := [".sh", ".bash", ".zsh", ".ksh", ".rb", ".pl", ".pm", ".yaml", ".yml", ".toml", ".cmake", ".mk",
                       "cmakelists.txt", "makefile", "dockerfile"]

  lemma EndsWithIs(stem: string, suffix: string)
    ensures EndsWith(stem + suffix, suffix)
  {
  }

  lemma LastDiffers(stem: string, suffix: string, other: string)
    requires suffix != "" && other != "" && suffix[|suffix| - 1] != other[|other| - 1]
    ensures !EndsWith(stem + suffix, other)
  {
    var p := stem + suffix;
    assert p[|p| - 1] == suffix[|suffix| - 1];
    assert |other| <= |p| ==> p[|p| - |other|..][|other| - 1] == p[|p| - 1];
  }

  lemma PythonPath(stem: string, word: char -> bool)
    ensures DialectFor(stem + ".py", word) == Dialect(Hash, true, word)
    ensures DialectFor(stem + ".pyw", word) == Dialect(Hash, true, word)
  {
    EndsWithIs(stem, ".py");
    EndsWithIs(stem, ".pyw");
    assert PYTHON_SUFFIXES[0] == ".py" && PYTHON_SUFFIXES[1] == ".pyw";
  }

  lemma ShellPath(stem: string, k: nat, word: char -> bool)
    requires k < 15
    ensures DialectFor(stem + SHELL_LIKE[k], word) == Dialect(Hash, false, word)
  {
    var suffix := SHELL_LIKE[k];
    EndsWithIs(stem, suffix);
    assert HASH_SUFFIXES[k] == suffix;
    LastDiffers(stem, suffix, ".py");
    LastDiffers(stem, suffix, ".pyw");
  }

  lemma LuaPath(stem: string, word: char -> bool)
    ensures DialectFor(stem + ".lua", word) == Dialect(Lua, false, word)
  {
    EndsWithIs(stem, ".lua");
    forall k | 0 <= k < |HASH_SUFFIXES| ensures !EndsWith(stem + ".lua", HASH_SUFFIXES[k]) {
      LastDiffers(stem, ".lua", HASH_SUFFIXES[k]);
    }
    forall k | 0 <= k < |PYTHON_SUFFIXES| ensures !EndsWith(stem + ".lua", PYTHON_SUFFIXES[k]) {
      LastDiffers(stem, ".lua", PYTHON_SUFFIXES[k]);
    }
  }

  // The path does not end so.
  ghost predicate Misses(path: string, suffix: string) {
    forall stem: string :: path != stem + suffix
  }

  lemma MissesIs(path: string, suffix: string)
    requires Misses(path, suffix)
    ensures !EndsWith(path, suffix)
  {
    if |suffix| <= |path| {
      var stem := path[..|path| - |suffix|];
      assert path == stem + path[|path| - |suffix|..] && path != stem + suffix;
    }
  }

  // The paths that end so are those: everything else is read as C.
  lemma OtherPath(path: string, word: char -> bool)
    requires Misses(path, ".py") && Misses(path, ".pyw") && Misses(path, ".lua")
    requires forall k | 0 <= k < 15 :: Misses(path, SHELL_LIKE[k])
    ensures DialectFor(path, word) == Dialect(CStyle, false, word)
  {
    MissesIs(path, ".lua");
    forall k | 0 <= k < |PYTHON_SUFFIXES| ensures !EndsWith(path, PYTHON_SUFFIXES[k]) {
      MissesIs(path, PYTHON_SUFFIXES[k]);
    }
    forall k | 0 <= k < |HASH_SUFFIXES| ensures !EndsWith(path, HASH_SUFFIXES[k]) {
      assert HASH_SUFFIXES[k] == SHELL_LIKE[k];
      MissesIs(path, SHELL_LIKE[k]);
    }
  }

  // ------------------------------------------------------- comments and strings

  // Character q is read in code.
  ghost predicate InCodeAt(d: Dialect, s: string, q: nat) {
    q < |s| && ClassOf(d, s, q) == InCode
  }

  // The characters between are not read in code, and the one at `to` is.
  ghost predicate HiddenUpTo(d: Dialect, s: string, from: nat, to: nat) {
    (forall q: nat | from < q < to && q < |s| :: !InCodeAt(d, s, q)) && (to < |s| ==> InCodeAt(d, s, to))
  }

  // The first `close` at or behind `from` is at e; the end when there is none.
  ghost predicate FirstAt(s: string, close: string, from: nat, e: nat) {
    && from <= e && (forall m: nat | from <= m < e :: !At(s, m, close))
    && (At(s, e, close) || e == |s|)
  }

  lemma {:induction false} BehindFirst(s: string, close: string, from: nat, e: nat)
    requires close != "" && from <= |s| && FirstAt(s, close, from, e)
    ensures Behind(s, close, from) == if At(s, e, close) then e + |close| else |s|
    decreases |s| - from
  {
    if from < e {
      BehindFirst(s, close, from + 1, e);
    }
  }

  lemma TextStarts(d: Dialect, s: string)
    requires s != ""
    ensures InCodeAt(d, s, 0)
  {
  }

  // A token read in code hides what it covers, and code goes on behind it.
  lemma OpaqueHides(d: Dialect, s: string, i: nat, body: nat, close: string, e: nat)
    requires InCodeAt(d, s, i) && TokenAt(d, s, i) == Opaque(body, close) && close != "" && FirstAt(s, close, body, e)
    ensures HiddenUpTo(d, s, i, if At(s, e, close) then e + |close| else |s|)
  {
    BehindFirst(s, close, body, e);
    var to := if At(s, e, close) then e + |close| else |s|;
    forall q: nat | i < q <= to && q < |s| ensures InCodeAt(d, s, q) <==> q == to {
      ClassThrough(d, s, 0, i, q);
    }
  }

  // A character that opens nothing: code goes on with the next one.
  lemma PlainGoesOn(d: Dialect, s: string, i: nat)
    requires InCodeAt(d, s, i) && i + 1 < |s| && TokenAt(d, s, i) == Plain
    ensures InCodeAt(d, s, i + 1)
  {
    ClassThrough(d, s, 0, i, i + 1);
  }

  // What opens a comment up to the end of the line in which syntax.
  predicate OpensLine(d: Dialect, s: string, i: nat, open: string) {
    && At(s, i, open)
    && match d.syntax
       case CStyle => open == "//"
       case Hash => open == "#"
       case Lua => open == "--" && !At(s, i, "--[[")
  }

  lemma LineToken(d: Dialect, s: string, i: nat, open: string)
    requires i < |s| && OpensLine(d, s, i, open)
    ensures TokenAt(d, s, i) == Opaque(i + |open|, "\n")
  {
    Openers(s, i);
    TextIs(s, i, open);
  }

  lemma FirstNewline(s: string, from: nat, e: nat)
    requires from <= e <= |s| && (forall m | from <= m < e :: s[m] != '\n') && (e < |s| ==> s[e] == '\n')
    ensures FirstAt(s, "\n", from, e) && (At(s, e, "\n") <==> e < |s|)
  {
    forall m: nat | m < |s| ensures At(s, m, "\n") <==> s[m] == '\n' {
      assert s[m..m + 1] == [s[m]];
    }
  }

  // Everything up to and with the newline of a line comment is hidden.
  lemma LineComment(d: Dialect, s: string, i: nat, open: string, e: nat)
    requires InCodeAt(d, s, i) && OpensLine(d, s, i, open)
    requires i < e <= |s| && (forall m | i < m < e :: s[m] != '\n') && (e < |s| ==> s[e] == '\n')
    ensures HiddenUpTo(d, s, i, if e < |s| then e + 1 else |s|)
  {
    TextIs(s, i, open);
    LineToken(d, s, i, open);
    FirstNewline(s, i + |open|, e);
    OpaqueHides(d, s, i, i + |open|, "\n", e);
  }

  // What opens a block in which syntax, and what closes it.
  predicate Opens(d: Dialect, s: string, i: nat, open: string, close: string) {
    && At(s, i, open)
    && match d.syntax
       case CStyle => open == "/*" && close == "*/"
       case Lua => (open == "--[[" || open == "[[") && close == "]]"
       case Hash => d.pyTriple && (open == "\"\"\"" || open == "'''") && close == open
  }

  // A block comment, a long bracket and a triple-quoted string hide everything
  // up to and with the first closing text behind the opening one.
  lemma Block(d: Dialect, s: string, i: nat, open: string, close: string, e: nat)
    requires InCodeAt(d, s, i) && Opens(d, s, i, open, close) && FirstAt(s, close, i + |open|, e)
    ensures HiddenUpTo(d, s, i, if At(s, e, close) then e + |close| else |s|)
  {
    Openers(s, i);
    assert s[i] == s[i..i + |open|][0] == open[0];
    if d.syntax == Hash {
      assert [s[i], s[i], s[i]] == open;
    }
    assert TokenAt(d, s, i) == Opaque(i + |open|, close);
    OpaqueHides(d, s, i, i + |open|, close, e);
  }

  // A string's text from i to e: escapes of two characters, and others that
  // are neither the quote nor a backslash.
  predicate StringText(s: string, quote: char, i: nat, e: nat)
    requires e <= |s|
    decreases |s| - i
  {
    || i == e
    || (i < e && s[i] == '\\' && StringText(s, quote, i + 2, e))
    || (i < e && s[i] != '\\' && s[i] != quote && StringText(s, quote, i + 1, e))
  }

  lemma {:induction false} StringHides(d: Dialect, s: string, quote: char, i: nat, e: nat, q: nat)
    requires i <= q < |s| && i <= e <= |s| && q <= e + 1 && StringText(s, quote, i, e) && quote != '\\'
    requires e < |s| ==> s[e] == quote
    ensures ClassInString(d, s, quote, i, q) == InCode <==> q == e + 1
    decreases |s| - i
  {
    if i < q && i < e {
      if s[i] == '\\' {
        if i + 1 < q {
          StringHides(d, s, quote, i + 2, e, q);
        }
      } else {
        StringHides(d, s, quote, i + 1, e, q);
      }
    }
  }

  // The quote opens a raw string: the R before it ends one of five prefixes
  // that is a word of its own, and at most 16 delimiter characters lead to '('.
  ghost predicate RawAt(d: Dialect, s: string, i: nat, prefix: string, delim: string) {
    && prefix in ["R", "LR", "u8R", "uR", "UR"]
    && |prefix| <= i < |s| && s[i - |prefix|..i] == prefix
    && (i == |prefix| || !(d.word(s[i - |prefix| - 1]) || s[i - |prefix| - 1] == '_'))
    && |delim| <= 16 && At(s, i + 1, delim + "(")
    && forall k | 0 <= k < |delim| :: delim[k] !in "()\\\"" && !IsSpace(delim[k])
  }

  // The letters and the digit of the prefixes are letters and a digit.
  predicate KnowsLetters(d: Dialect) {
    d.word('L') && d.word('u') && d.word('U') && d.word('8')
  }

  lemma RawIsRawQuote(d: Dialect, s: string, i: nat, prefix: string, delim: string)
    requires KnowsLetters(d) && RawAt(d, s, i, prefix, delim)
    ensures RawQuoteAt(d, s, i) && RawOpensAt(s, i + 1, i + 1 + |delim|)
  {
    var b, k := i - |prefix|, i + 1 + |delim|;
    DelimIs(s, i + 1, delim);
    assert RawOpensAt(s, i + 1, k);
    assert s[b..b + |prefix|] == prefix;
    TextIs(s, b, prefix);
    assert s[i - 1] == prefix[|prefix| - 1] == 'R';
    assert RunFrom(d, s, b, i - 1) && s[b..i - 1 + 1] == prefix;
  }

  // A text at j, character by character.
  lemma TextIs(s: string, j: nat, text: string)
    requires At(s, j, text)
    ensures forall m | j <= m < j + |text| :: s[m] == text[m - j]
  {
    assert forall m | j <= m < j + |text| :: s[m] == s[j..j + |text|][m - j];
  }

  lemma DelimIs(s: string, j: nat, delim: string)
    requires At(s, j, delim + "(")
    ensures s[j + |delim|] == '(' && s[j..j + |delim|] == delim
    ensures forall m | j <= m < j + |delim| :: s[m] == delim[m - j]
  {
    TextIs(s, j, delim + "(");
  }

  lemma RawQuoteIsRaw(d: Dialect, s: string, i: nat) returns (prefix: string, delim: string)
    requires i < |s| && RawQuoteAt(d, s, i)
    ensures RawAt(d, s, i, prefix, delim)
  {
    var b: nat :| RunFrom(d, s, b, i - 1) && IsRawPrefix(s[b..i - 1 + 1]);
    var k := RawOpen(s, i + 1);
    prefix, delim := s[b..i], s[i + 1..k];
    assert s[i + 1..k + 1] == delim + "(";
    assert forall m | 0 <= m < |delim| :: DelimChar(s[i + 1 + m]) && delim[m] == s[i + 1 + m];
  }

  // A quote that opens neither a raw string nor a triple-quoted one.
  ghost predicate OpensString(d: Dialect, s: string, i: nat) {
    && i < |s| && (s[i] == '"' || s[i] == '\'')
    && (d.syntax == Hash && d.pyTriple ==> !At(s, i, "\"\"\"") && !At(s, i, "'''"))
    && (d.syntax == CStyle && s[i] == '"' ==> forall prefix, delim :: !RawAt(d, s, i, prefix, delim))
  }

  lemma StringToken(d: Dialect, s: string, i: nat)
    requires OpensString(d, s, i)
    ensures TokenAt(d, s, i) == Quoted(i + 1, s[i])
  {
    Openers(s, i);
    assert [s[i], s[i], s[i]] == if s[i] == '"' then "\"\"\"" else "'''";
    if d.syntax == CStyle && s[i] == '"' && RawQuoteAt(d, s, i) {
      var prefix, delim := RawQuoteIsRaw(d, s, i);
    }
  }

  // A string hides its text and its closing quote, and code goes on behind it.
  lemma QuotedString(d: Dialect, s: string, i: nat, e: nat)
    requires InCodeAt(d, s, i) && OpensString(d, s, i)
    requires i < e <= |s| && StringText(s, s[i], i + 1, e) && (e < |s| ==> s[e] == s[i])
    ensures HiddenUpTo(d, s, i, e + 1)
  {
    StringToken(d, s, i);
    forall q: nat | i < q < |s| && q <= e + 1 ensures InCodeAt(d, s, q) <==> q == e + 1 {
      ClassThrough(d, s, 0, i, q);
      StringHides(d, s, s[i], i + 1, e, q);
    }
  }

  // A raw string hides everything up to and with its first )delim" .
  lemma RawString(d: Dialect, s: string, i: nat, prefix: string, delim: string, close: string, e: nat)
    requires d.syntax == CStyle && KnowsLetters(d) && InCodeAt(d, s, i) && s[i] == '"' && RawAt(d, s, i, prefix, delim)
    requires close == ")" + delim + "\"" && FirstAt(s, close, i + 2 + |delim|, e)
    ensures HiddenUpTo(d, s, i, if At(s, e, close) then e + |close| else |s|)
  {
    RawIsRawQuote(d, s, i, prefix, delim);
    RawToken(d, s, i, i + 1 + |delim|);
    CloseIs(d, s, i, prefix, delim, close);
    OpaqueHides(d, s, i, i + 2 + |delim|, close, e);
  }

  lemma CloseIs(d: Dialect, s: string, i: nat, prefix: string, delim: string, close: string)
    requires RawAt(d, s, i, prefix, delim) && close == ")" + delim + "\""
    ensures i + 1 + |delim| <= |s| && RawClose(s, i, i + 1 + |delim|) == close
  {
    DelimIs(s, i + 1, delim);
  }

  // Any other character leaves the next one in code.
  lemma OtherGoesOn(d: Dialect, s: string, i: nat)
    requires InCodeAt(d, s, i) && i + 1 < |s| && s[i] != '"' && s[i] != '\''
    requires match d.syntax
             case CStyle => !At(s, i, "//") && !At(s, i, "/*")
             case Hash => s[i] != '#'
             case Lua => !At(s, i, "--") && !At(s, i, "[[")
    ensures InCodeAt(d, s, i + 1)
  {
    Openers(s, i);
    PlainGoesOn(d, s, i);
  }

  // -------------------------------------------------------------- the verdict

  // Characters that never make a line code: blanks, glue between arguments,
  // quotes, the backslash and what introduces a comment.
  predicate IsGlue(d: Dialect, s: string, q: nat)
    requires q < |s|
  {
    || IsSpace(s[q])
    || s[q] == ',' || s[q] == ';' || s[q] == '(' || s[q] == ')' || s[q] == '{' || s[q] == '}' || s[q] == '['
    || s[q] == ']' || s[q] == '"' || s[q] == '\'' || s[q] == '\\'
    || match d.syntax
       case CStyle => At(s, q, "//") || At(s, q, "/*")
       case Hash => s[q] == '#'
       case Lua => s[q] == '-'
  }

  lemma GlueIsNoCode(d: Dialect, s: string, q: nat)
    ensures CodeAt(d, s, q) <==> InCodeAt(d, s, q) && !IsGlue(d, s, q)
  {
    if q < |s| {
      Openers(s, q);
    }
  }

  // A letter, a digit or an operator read in code on the line makes it code.
  lemma OneCharacterIsEnough(d: Dialect, s: string, line: int, q: nat)
    requires InCodeAt(d, s, q) && ScannedLine(d, s, q) == line && !IsGlue(d, s, q)
    ensures ScannedLineHasCode(d, s, line)
  {
    GlueIsNoCode(d, s, q);
  }

  // A line whose characters are glue, or not read in code, has none.
  lemma GlueAlone(d: Dialect, s: string, line: int)
    requires forall q: nat | InCodeAt(d, s, q) && ScannedLine(d, s, q) == line :: IsGlue(d, s, q)
    ensures !ScannedLineHasCode(d, s, line)
  {
    forall q: nat | CodeAt(d, s, q) ensures ScannedLine(d, s, q) != line {
      GlueIsNoCode(d, s, q);
    }
  }

  // What an escape swallowed is inside a string, and so is what follows it.
  lemma {:induction false} SwallowedIsInside(d: Dialect, s: string, i: nat, q: nat)
    requires i <= q && q + 1 < |s| && ClassFrom(d, s, i, q) == Swallowed
    ensures ClassFrom(d, s, i, q + 1) == Hidden
    decreases |s| - i, 1
  {
    if i < q {
      match TokenAt(d, s, i)
      case Plain => SwallowedIsInside(d, s, i + 1, q);
      case Opaque(body, close) => SwallowedIsInside(d, s, Behind(s, close, body), q);
      case Quoted(body, quote) => SwallowedInString(d, s, quote, body, q);
    }
  }

  lemma {:induction false} SwallowedInString(d: Dialect, s: string, quote: char, i: nat, q: nat)
    requires i <= q && q + 1 < |s| && ClassInString(d, s, quote, i, q) == Swallowed
    ensures ClassInString(d, s, quote, i, q + 1) == Hidden
    decreases |s| - i, 0
  {
    if i < q {
      if s[i] == '\\' {
        if i + 1 < q {
          SwallowedInString(d, s, quote, i + 2, q);
        }
      } else if s[i] == quote {
        SwallowedIsInside(d, s, i + 1, q);
      } else {
        SwallowedInString(d, s, quote, i + 1, q);
      }
    }
  }

  // The line from b up to the newline or the end at e, where the line begins in
  // code and so does the next one.
  ghost predicate IsLine(d: Dialect, s: string, b: nat, e: nat) {
    && b <= e <= |s| && b < |s| && InCodeAt(d, s, b) && (b > 0 ==> s[b - 1] == '\n')
    && (forall m | b <= m < e :: s[m] != '\n')
    && (e < |s| ==> s[e] == '\n') && (e + 1 < |s| ==> InCodeAt(d, s, e + 1))
  }

  lemma {:induction false} SameLine(d: Dialect, s: string, b: nat, e: nat, q: nat)
    requires b <= q <= e <= |s| && forall m | b <= m < e :: s[m] != '\n'
    ensures ScannedLine(d, s, q) == ScannedLine(d, s, b)
  {
    if b < q {
      SameLine(d, s, b, e, q - 1);
    }
  }

  // A newline in front of code was not swallowed.
  lemma NewlineCounts(d: Dialect, s: string, b: nat)
    requires 0 < b && InCodeAt(d, s, b) && s[b - 1] == '\n'
    ensures ScannedLine(d, s, b) == ScannedLine(d, s, b - 1) + 1
  {
    if ClassOf(d, s, b - 1) == Swallowed {
      SwallowedIsInside(d, s, 0, b - 1);
    }
  }

  // Of the characters before and behind, none is on the line.
  lemma OnlyTheLine(d: Dialect, s: string, b: nat, e: nat, q: nat)
    requires IsLine(d, s, b, e) && q < |s|
    ensures ScannedLine(d, s, q) == ScannedLine(d, s, b) <==> b <= q <= e
  {
    if q < b {
      ScannedLineIsMonotone(d, s, q, b - 1);
      NewlineCounts(d, s, b);
    } else if e < q {
      SameLine(d, s, b, e, e);
      NewlineCounts(d, s, e + 1);
      ScannedLineIsMonotone(d, s, e + 1, q);
    } else {
      SameLine(d, s, b, e, q);
    }
  }

  // The verdict for such a line: some character of it is read in code and is
  // no glue.
  lemma LineVerdict(d: Dialect, s: string, b: nat, e: nat)
    requires IsLine(d, s, b, e)
    ensures ScannedLineHasCode(d, s, ScannedLine(d, s, b))
       <==> exists q: nat :: b <= q < e && InCodeAt(d, s, q) && !IsGlue(d, s, q)
  {
    var line := ScannedLine(d, s, b);
    if exists q: nat :: b <= q < e && InCodeAt(d, s, q) && !IsGlue(d, s, q) {
      var q: nat :| b <= q < e && InCodeAt(d, s, q) && !IsGlue(d, s, q);
      OnlyTheLine(d, s, b, e, q);
      OneCharacterIsEnough(d, s, line, q);
    } else {
      forall q: nat | InCodeAt(d, s, q) && ScannedLine(d, s, q) == line ensures IsGlue(d, s, q) {
        OnlyTheLine(d, s, b, e, q);
      }
      GlueAlone(d, s, line);
    }
  }

  lemma {:induction false} BlanksInCode(d: Dialect, s: string, b: nat, i: nat)
    requires b <= i < |s| && InCodeAt(d, s, b) && forall m | b <= m < i :: IsSpace(s[m])
    ensures InCodeAt(d, s, i)
  {
    if b < i {
      BlanksInCode(d, s, b, i - 1);
      Openers(s, i - 1);
      OtherGoesOn(d, s, i - 1);
    }
  }

  // The first line, or one behind a newline, that begins in code.
  ghost predicate BeginsAt(d: Dialect, s: string, b: nat) {
    InCodeAt(d, s, b) && (b > 0 ==> s[b - 1] == '\n')
  }

  // Blanks and a line comment are no code.
  lemma CommentLine(d: Dialect, s: string, b: nat, i: nat, open: string, e: nat)
    requires BeginsAt(d, s, b) && b <= i < e <= |s| && (forall m | b <= m < i :: IsSpace(s[m]) && s[m] != '\n')
    requires OpensLine(d, s, i, open)
    requires (forall m | i < m < e :: s[m] != '\n') && (e < |s| ==> s[e] == '\n')
    ensures !ScannedLineHasCode(d, s, ScannedLine(d, s, b))
  {
    BlanksInCode(d, s, b, i);
    LineComment(d, s, i, open, e);
    TextIs(s, i, open);
    Openers(s, i);
    assert IsLine(d, s, b, e);
    LineVerdict(d, s, b, e);
  }

  // Blanks, a block that closes on the line, and blanks are no code.
  lemma BlockLine(d: Dialect, s: string, b: nat, i: nat, open: string, close: string, k: nat, e: nat)
    requires BeginsAt(d, s, b) && b <= i < |s| && Opens(d, s, i, open, close) && FirstAt(s, close, i + |open|, k)
    requires At(s, k, close) && k + |close| <= e <= |s| && (e < |s| ==> s[e] == '\n')
    requires forall m | b <= m < i || k + |close| <= m < e :: IsSpace(s[m])
    requires forall m | b <= m < e :: s[m] != '\n'
    ensures !ScannedLineHasCode(d, s, ScannedLine(d, s, b))
  {
    BlanksInCode(d, s, b, i);
    Block(d, s, i, open, close, k);
    OpenerIsGlue(d, s, i, open, close);
    var c := k + |close|;
    if e < |s| {
      BlanksInCode(d, s, c, e);
      OtherGoesOnBehindNewline(d, s, e);
    }
    assert IsLine(d, s, b, e);
    LineVerdict(d, s, b, e);
  }

  lemma OtherGoesOnBehindNewline(d: Dialect, s: string, e: nat)
    requires InCodeAt(d, s, e) && s[e] == '\n'
    ensures e + 1 < |s| ==> InCodeAt(d, s, e + 1)
  {
    if e + 1 < |s| {
      Openers(s, e);
      OtherGoesOn(d, s, e);
    }
  }

  lemma OpenerIsGlue(d: Dialect, s: string, i: nat, open: string, close: string)
    requires i < |s| && Opens(d, s, i, open, close)
    ensures IsGlue(d, s, i)
  {
    TextIs(s, i, open);
  }
}
