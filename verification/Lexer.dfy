/** The comment/string scanner: one pass with seven states and index jumps,
    proved against a reading in two passes. */
module Lexer {
  import opened Chars

  datatype Syntax = CStyle | Hash | Lua

  // Everything the scanner knows about a file before reading it. `word` is
  // the letter-or-digit test of the character type.
  datatype Dialect = Dialect(syntax: Syntax, pyTriple: bool, word: char -> bool)

  // ---------------------------------------------------------------- dialect

  predicate EndsWith(s: string, suffix: string) {
    |suffix| <= |s| && s[|s| - |suffix|..] == suffix
  }

  predicate EndsWithAny(s: string, suffixes: seq<string>) {
    exists k | 0 <= k < |suffixes| :: EndsWith(s, suffixes[k])
  }

  const PYTHON_SUFFIXES := [".py", ".pyw"]
  const HASH_SUFFIXES := [".sh", ".bash", ".zsh", ".ksh", ".rb", ".pl", ".pm", ".yaml", ".yml", ".toml",
                          ".cmake", ".mk", "cmakelists.txt", "makefile", "dockerfile"]

  // The path is expected in lower case, as the scanner lowers it first.
  function DialectFor(lowerPath: string, word: char -> bool): Dialect {
    if EndsWithAny(lowerPath, PYTHON_SUFFIXES) then Dialect(Hash, true, word)
    else if EndsWithAny(lowerPath, HASH_SUFFIXES) then Dialect(Hash, false, word)
    else if EndsWith(lowerPath, ".lua") then Dialect(Lua, false, word)
    else Dialect(CStyle, false, word)
  }

  // ------------------------------------------------- pass one: lexical class

  // What starts at a character read in code: nothing, a token that is opaque
  // up to a closing text, or a string with escapes.
  datatype Token =
    | Plain
    | Opaque(body: nat, close: string)
    | Quoted(body: nat, quote: char)

  // Class of one character. `Swallowed` is the character behind a backslash
  // inside a string.
  datatype Class = InCode | Hidden | Swallowed

  predicate At(s: string, i: nat, text: string) {
    i + |text| <= |s| && s[i..i + |text|] == text
  }

  lemma AtTwo(s: string, i: nat, text: string)
    requires |text| == 2
    ensures At(s, i, text) <==> i + 1 < |s| && s[i] == text[0] && s[i + 1] == text[1]
  {
    if i + 1 < |s| {
      assert s[i..i + 2] == [s[i], s[i + 1]];
      assert text == [text[0], text[1]];
    }
  }

  lemma AtThree(s: string, i: nat, text: string)
    requires |text| == 3
    ensures At(s, i, text) <==> i + 2 < |s| && s[i] == text[0] && s[i + 1] == text[1] && s[i + 2] == text[2]
  {
    if i + 2 < |s| {
      assert s[i..i + 3] == [s[i], s[i + 1], s[i + 2]];
      assert text == [text[0], text[1], text[2]];
    }
  }

  lemma AtFour(s: string, i: nat, text: string)
    requires |text| == 4
    ensures At(s, i, text) <==>
      i + 3 < |s| && s[i] == text[0] && s[i + 1] == text[1] && s[i + 2] == text[2] && s[i + 3] == text[3]
  {
    if i + 3 < |s| {
      assert s[i..i + 4] == [s[i], s[i + 1], s[i + 2], s[i + 3]];
      assert text == [text[0], text[1], text[2], text[3]];
    }
  }

  // The openers of the three syntaxes, character by character.
  lemma Openers(s: string, i: nat)
    requires i < |s|
    ensures At(s, i, "//") <==> i + 1 < |s| && s[i] == '/' && s[i + 1] == '/'
    ensures At(s, i, "/*") <==> i + 1 < |s| && s[i] == '/' && s[i + 1] == '*'
    ensures At(s, i, "--") <==> i + 1 < |s| && s[i] == '-' && s[i + 1] == '-'
    ensures At(s, i, "[[") <==> i + 1 < |s| && s[i] == '[' && s[i + 1] == '['
    ensures At(s, i, "--[[") <==> i + 3 < |s| && s[i] == '-' && s[i + 1] == '-' && s[i + 2] == '[' && s[i + 3] == '['
    ensures At(s, i, [s[i], s[i], s[i]]) <==> i + 2 < |s| && s[i + 1] == s[i] && s[i + 2] == s[i]
  {
    AtTwo(s, i, "//");
    AtTwo(s, i, "/*");
    AtTwo(s, i, "--");
    AtTwo(s, i, "[[");
    AtThree(s, i, [s[i], s[i], s[i]]);
    AtFour(s, i, "--[[");
  }

  predicate IsQuote(c: char) {
    c == '"' || c == '\''
  }

  // d-char of a raw string: section 5.13.5 of ISO/IEC 14882:2020.
  predicate DelimChar(c: char) {
    c != '(' && c != ')' && c != '\\' && c != '"' && !IsSpace(c)
  }

  // The raw-string delimiter that starts at `b` runs up to the '(' at `k`.
  ghost predicate RawOpensAt(s: string, b: nat, k: nat) {
    b <= k < |s| && k - b <= 16 && s[k] == '(' && forall m | b <= m < k :: DelimChar(s[m])
  }

  ghost predicate RawOpens(s: string, b: nat) {
    exists k: nat :: RawOpensAt(s, b, k)
  }

  ghost function RawOpen(s: string, b: nat): (k: nat)
    requires RawOpens(s, b)
    ensures RawOpensAt(s, b, k)
  {
    var k: nat :| RawOpensAt(s, b, k);
    k
  }

  predicate IsWordChar(d: Dialect, c: char) {
    d.word(c) || c == '_'
  }

  // The identifier run that ends at position r starts at b.
  ghost predicate RunFrom(d: Dialect, s: string, b: nat, r: nat) {
    b <= r < |s|
    && (forall k | b <= k < r :: IsWordChar(d, s[k]))
    && (b == 0 || !IsWordChar(d, s[b - 1]))
  }

  predicate IsRawPrefix(run: string) {
    run == "R" || run == "LR" || run == "u8R" || run == "uR" || run == "UR"
  }

  // The identifier run that ends at position r is a raw-string prefix.
  ghost predicate RawPrefixAt(d: Dialect, s: string, r: nat) {
    exists b: nat :: RunFrom(d, s, b, r) && IsRawPrefix(s[b..r + 1])
  }

  ghost predicate RawQuoteAt(d: Dialect, s: string, i: nat)
    requires i < |s|
  {
    0 < i && s[i - 1] == 'R' && RawPrefixAt(d, s, i - 1) && RawOpens(s, i + 1)
  }

  ghost function TokenAt(d: Dialect, s: string, i: nat): (t: Token)
    requires i < |s|
    ensures !t.Plain? ==> i < t.body <= |s|
    ensures t.Opaque? ==> t.close != ""
  {
    match d.syntax
    case Hash =>
      if s[i] == '#' then Opaque(i + 1, "\n")
      else if d.pyTriple && IsQuote(s[i]) && At(s, i, [s[i], s[i], s[i]]) then Opaque(i + 3, [s[i], s[i], s[i]])
      else if IsQuote(s[i]) then Quoted(i + 1, s[i])
      else Plain
    case Lua =>
      if At(s, i, "--[[") then Opaque(i + 4, "]]")
      else if At(s, i, "--") then Opaque(i + 2, "\n")
      else if At(s, i, "[[") then Opaque(i + 2, "]]")
      else if IsQuote(s[i]) then Quoted(i + 1, s[i])
      else Plain
    case CStyle =>
      if At(s, i, "//") then Opaque(i + 2, "\n")
      else if At(s, i, "/*") then Opaque(i + 2, "*/")
      else if s[i] == '"' && RawQuoteAt(d, s, i) then
        var k := RawOpen(s, i + 1);
        Opaque(k + 1, ")" + s[i + 1..k] + "\"")
      else if IsQuote(s[i]) then Quoted(i + 1, s[i])
      else Plain
  }

  // Just behind the first `close` at or after `i`; the end when there is none.
  ghost function Behind(s: string, close: string, i: nat): (e: nat)
    requires i <= |s| && close != ""
    ensures i <= e <= |s|
    ensures i < |s| ==> i < e
    decreases |s| - i
  {
    if i + |close| > |s| then |s|
    else if At(s, i, close) then i + |close|
    else Behind(s, close, i + 1)
  }

  // Class of character q, when character i is read in code and i <= q.
  ghost function ClassFrom(d: Dialect, s: string, i: nat, q: nat): Class
    requires i <= q < |s|
    decreases |s| - i
  {
    if q == i then InCode
    else
      match TokenAt(d, s, i)
      case Plain => ClassFrom(d, s, i + 1, q)
      case Opaque(body, close) =>
        if q < Behind(s, close, body) then Hidden else ClassFrom(d, s, Behind(s, close, body), q)
      case Quoted(body, quote) => ClassInString(d, s, quote, body, q)
  }

  // Class of character q, when character i is inside a string.
  ghost function ClassInString(d: Dialect, s: string, quote: char, i: nat, q: nat): Class
    requires i <= q < |s|
    decreases |s| - i
  {
    if q == i then Hidden
    else if s[i] == '\\' then
      if q == i + 1 then Swallowed else ClassInString(d, s, quote, i + 2, q)
    else if s[i] == quote then ClassFrom(d, s, i + 1, q)
    else ClassInString(d, s, quote, i + 1, q)
  }

  ghost function ClassOf(d: Dialect, s: string, q: nat): Class
    requires q < |s|
  {
    ClassFrom(d, s, 0, q)
  }

  // Characters that never count as code: blanks, argument-list glue, string
  // delimiters, the escape character and comment introducers.
  predicate Structural(d: Dialect, s: string, q: nat)
    requires q < |s|
  {
    var c := s[q];
    IsSpace(c) || c in ",;(){}[]\"'\\"
    || (d.syntax == Hash && c == '#')
    || (d.syntax == Lua && c == '-')
    || (d.syntax == CStyle && c == '/' && q + 1 < |s| && (s[q + 1] == '/' || s[q + 1] == '*'))
  }

  ghost predicate CodeAt(d: Dialect, s: string, q: nat) {
    q < |s| && ClassOf(d, s, q) == InCode && !Structural(d, s, q)
  }

  // ----------------------------------------------------- pass two: counting

  // Lines are numbered from 1: one more than the newlines before q.
  ghost function PhysicalLine(s: string, q: nat): nat
    requires q <= |s|
  {
    if q == 0 then 1 else PhysicalLine(s, q - 1) + (if s[q - 1] == '\n' then 1 else 0)
  }

  ghost predicate SwallowedNewline(d: Dialect, s: string, q: nat) {
    q < |s| && s[q] == '\n' && ClassOf(d, s, q) == Swallowed
  }

  // The scanner's line number: a swallowed newline is not counted.
  ghost function ScannedLine(d: Dialect, s: string, q: nat): nat
    requires q <= |s|
  {
    if q == 0 then 1
    else ScannedLine(d, s, q - 1) + (if s[q - 1] == '\n' && !SwallowedNewline(d, s, q - 1) then 1 else 0)
  }

  ghost predicate ScannedLineHasCode(d: Dialect, s: string, line: int) {
    exists q: nat :: CodeAt(d, s, q) && ScannedLine(d, s, q) == line
  }

  ghost predicate PhysicalLineHasCode(d: Dialect, s: string, line: int) {
    exists q: nat :: CodeAt(d, s, q) && PhysicalLine(s, q) == line
  }

  // ------------------------------------------------------------ the scanner

  method IsRawStringPrefix(d: Dialect, s: string, r: nat) returns (b: bool)
    requires r < |s|
    ensures b == RawPrefixAt(d, s, r)
  {
    var start := r;
    while start > 0 && IsWordChar(d, s[start - 1])
      invariant 0 <= start <= r
      invariant forall k | start <= k < r :: IsWordChar(d, s[k])
    {
      start := start - 1;
    }
    b := IsRawPrefix(s[start..r + 1]);
    assert RunFrom(d, s, start, r);
  }

  datatype State = CodeState | LineComment | BlockComment | StringState | RawState | TripleState | BracketState

  // The closing text of every opaque state.
  function CloseOf(state: State, quote: char, terminator: string): string {
    match state
    case LineComment => "\n"
    case BlockComment => "*/"
    case TripleState => [quote, quote, quote]
    case _ => terminator
  }

  // What the scanner's state promises about the class of a later character.
  ghost function ClassAhead(d: Dialect, s: string, state: State, quote: char, terminator: string, i: nat, q: nat): Class
    requires i <= q < |s|
    requires terminator != ""
  {
    match state
    case CodeState => ClassFrom(d, s, i, q)
    case StringState => ClassInString(d, s, quote, i, q)
    case _ =>
      var e := Behind(s, CloseOf(state, quote, terminator), i);
      if q < e then Hidden else ClassFrom(d, s, e, q)
  }

  ghost predicate NoNewline(text: string) {
    forall k | 0 <= k < |text| :: text[k] != '\n'
  }

  lemma RawOpenIsUnique(s: string, b: nat, j: nat, k: nat)
    requires RawOpensAt(s, b, j) && RawOpensAt(s, b, k)
    ensures j == k
  {
    assert !DelimChar('(');
  }

  // The text behind R" is read up to '(', at most 16 delimiter characters.
  method ScanRawDelim(s: string, b: nat) returns (isRaw: bool, j: nat)
    requires b <= |s|
    ensures isRaw == RawOpens(s, b)
    ensures isRaw ==> RawOpensAt(s, b, j)
  {
    j := b;
    isRaw := false;
    while j < |s| && j - b <= 16
      invariant b <= j <= |s|
      invariant j - b <= 17
      invariant forall m | b <= m < j :: DelimChar(s[m])
      invariant !isRaw
    {
      if s[j] == '(' {
        isRaw := true;
        break;
      }
      if s[j] == ')' || s[j] == '\\' || s[j] == '"' || IsSpace(s[j]) {
        break;
      }
      j := j + 1;
    }
    assert isRaw ==> RawOpensAt(s, b, j);
  }

  // The closing text met at i ends the opaque state; anything else does not.
  lemma BehindStep(s: string, close: string, i: nat)
    requires i < |s| && close != ""
    ensures At(s, i, close) ==> Behind(s, close, i) == i + |close|
    ensures !At(s, i, close) ==> Behind(s, close, i) == Behind(s, close, i + 1)
  {
  }

  // The scanner's state behind the opening of a token.
  ghost predicate Entered(t: Token, state: State, quote: char, terminator: string, i: nat, next: nat) {
    match t
    case Plain => state == CodeState && next == i + 1
    case Opaque(body, close) =>
      state != CodeState && state != StringState && CloseOf(state, quote, terminator) == close && next == body
    case Quoted(body, q) => state == StringState && quote == q && next == body
  }

  lemma OpeningHoldsNoNewline(d: Dialect, s: string, i: nat, q: nat)
    requires i < |s| && i < q
    requires match TokenAt(d, s, i) case Plain => q < i + 1 case Opaque(b, _) => q < b case Quoted(b, _) => q < b
    requires s[i] != '\n'
    ensures q < |s| && s[q] != '\n'
  {
    Openers(s, i);
  }

  lemma EnteredClass(d: Dialect, s: string, state: State, quote: char, terminator: string, i: nat, next: nat, q: nat)
    requires i < q < |s| && i < next <= |s| && terminator != ""
    requires Entered(TokenAt(d, s, i), state, quote, terminator, i, next)
    ensures q < next ==> ClassFrom(d, s, i, q) == Hidden
    ensures next <= q ==> ClassFrom(d, s, i, q) == ClassAhead(d, s, state, quote, terminator, next, q)
  {
  }

  // `case 0` of the scanner: character i is read in code. One method a syntax.
  method StepHash(d: Dialect, s: string, i: nat) returns (state: State, quote: char, terminator: string, next: nat)
    requires i < |s| && s[i] != '\n' && d.syntax == Hash
    ensures i < next <= |s|
    ensures terminator != "" && NoNewline(terminator) && quote != '\n'
    ensures Entered(TokenAt(d, s, i), state, quote, terminator, i, next)
  {
    var c := s[i];
    state, quote, terminator, next := CodeState, '"', ")", i + 1;
    Openers(s, i);
    if c == '#' {
      state := LineComment;
    } else if d.pyTriple && (c == '"' || c == '\'') && i + 2 < |s| && s[i + 1] == c && s[i + 2] == c {
      state, quote, next := TripleState, c, i + 3;
    } else if c == '"' || c == '\'' {
      state, quote := StringState, c;
    }
  }

  method StepLua(d: Dialect, s: string, i: nat) returns (state: State, quote: char, terminator: string, next: nat)
    requires i < |s| && s[i] != '\n' && d.syntax == Lua
    ensures i < next <= |s|
    ensures terminator != "" && NoNewline(terminator) && quote != '\n'
    ensures Entered(TokenAt(d, s, i), state, quote, terminator, i, next)
  {
    var c := s[i];
    var n := if i + 1 < |s| then s[i + 1] else '\0';
    state, quote, terminator, next := CodeState, '"', ")", i + 1;
    Openers(s, i);
    if c == '-' && n == '-' {
      if i + 3 < |s| && s[i + 2] == '[' && s[i + 3] == '[' {
        state, terminator, next := BracketState, "]]", i + 4;
      } else {
        state, next := LineComment, i + 2;
      }
    } else if c == '[' && n == '[' {
      state, terminator, next := BracketState, "]]", i + 2;
    } else if c == '"' || c == '\'' {
      state, quote := StringState, c;
    }
  }

  method StepCStyle(d: Dialect, s: string, i: nat) returns (state: State, quote: char, terminator: string, next: nat)
    requires i < |s| && s[i] != '\n' && d.syntax == CStyle
    ensures i < next <= |s|
    ensures terminator != "" && NoNewline(terminator) && quote != '\n'
    ensures Entered(TokenAt(d, s, i), state, quote, terminator, i, next)
  {
    var c := s[i];
    var n := if i + 1 < |s| then s[i + 1] else '\0';
    state, quote, terminator, next := CodeState, '"', ")", i + 1;
    Openers(s, i);
    if c == '/' && n == '/' {
      state, next := LineComment, i + 2;
    } else if c == '/' && n == '*' {
      state, next := BlockComment, i + 2;
    } else {
      var raw, j := false, i;
      if c == '"' && i > 0 && s[i - 1] == 'R' {
        var prefix := IsRawStringPrefix(d, s, i - 1);
        if prefix {
          raw, j := ScanRawDelim(s, i + 1);
        }
      }
      if raw {
        RawOpenIsUnique(s, i + 1, j, RawOpen(s, i + 1));
        state, terminator, next := RawState, ")" + s[i + 1..j] + "\"", j + 1;
      } else if c == '"' || c == '\'' {
        state, quote := StringState, c;
      }
    }
  }

  method StepInCode(d: Dialect, s: string, i: nat) returns (state: State, quote: char, terminator: string, next: nat)
    requires i < |s| && s[i] != '\n'
    ensures i < next <= |s|
    ensures terminator != "" && NoNewline(terminator) && quote != '\n'
    ensures Entered(TokenAt(d, s, i), state, quote, terminator, i, next)
  {
    match d.syntax
    case Hash => state, quote, terminator, next := StepHash(d, s, i);
    case Lua => state, quote, terminator, next := StepLua(d, s, i);
    case CStyle => state, quote, terminator, next := StepCStyle(d, s, i);
  }

  // The other states: character i is hidden and is not a newline.
  method StepHidden(d: Dialect, s: string, state: State, quote: char, terminator: string, i: nat)
    returns (state': State, next: nat)
    requires i < |s| && s[i] != '\n' && state != CodeState
    requires terminator != "" && NoNewline(terminator) && quote != '\n'
    ensures i < next <= |s| + 1
    ensures forall q | i < q < next && q < |s| ::
      var found := ClassAhead(d, s, state, quote, terminator, i, q);
      found == Swallowed || (found == Hidden && s[q] != '\n')
    ensures forall q | next <= q < |s| ::
      ClassAhead(d, s, state, quote, terminator, i, q) == ClassAhead(d, s, state', quote, terminator, next, q)
  {
    state', next := state, i + 1;
    if state == StringState {
      if s[i] == '\\' {
        next := i + 2;
      } else if s[i] == quote {
        state' := CodeState;
      }
    } else {
      var close := CloseOf(state, quote, terminator);
      if At(s, i, close) {
        state', next := CodeState, i + |close|;
      }
      forall q | i < q < |s|
        ensures q < next ==> ClassAhead(d, s, state, quote, terminator, i, q) == Hidden && s[q] != '\n'
        ensures next <= q ==>
          ClassAhead(d, s, state, quote, terminator, i, q) == ClassAhead(d, s, state', quote, terminator, next, q)
      {
        OpaqueAhead(d, s, state, quote, terminator, i, q);
      }
    }
  }

  // A character ahead, seen from inside a comment or a raw string.
  lemma OpaqueAhead(d: Dialect, s: string, state: State, quote: char, terminator: string, i: nat, q: nat)
    requires i < q < |s| && state != CodeState && state != StringState
    requires terminator != "" && NoNewline(terminator) && s[i] != '\n'
    ensures var close := CloseOf(state, quote, terminator);
            var class_ := ClassAhead(d, s, state, quote, terminator, i, q);
            if !At(s, i, close) then class_ == ClassAhead(d, s, state, quote, terminator, i + 1, q)
            else if q < i + |close| then class_ == Hidden && s[q] != '\n'
            else class_ == ClassFrom(d, s, i + |close|, q)
  {
    var close := CloseOf(state, quote, terminator);
    BehindStep(s, close, i);
    if At(s, i, close) && q < i + |close| {
      assert s[q] == close[q - i] && s[i] == close[0];
    }
  }

  ghost predicate SeenCode(d: Dialect, s: string, line: int, i: nat) {
    exists q: nat :: q < i && CodeAt(d, s, q) && ScannedLine(d, s, q) == line
  }

  lemma {:induction false} ScannedLineIsMonotone(d: Dialect, s: string, p: nat, q: nat)
    requires p <= q <= |s|
    ensures ScannedLine(d, s, p) <= ScannedLine(d, s, q)
    decreases q
  {
    if p < q {
      ScannedLineIsMonotone(d, s, p, q - 1);
    }
  }

  // Skipped characters hold no newline that counts, and no code.
  lemma {:induction false} SkipHidden(d: Dialect, s: string, line: int, i: nat, next: nat)
    requires i < next <= |s|
    requires forall q | i < q < next :: ClassOf(d, s, q) != InCode && (s[q] == '\n' ==> ClassOf(d, s, q) == Swallowed)
    ensures ScannedLine(d, s, next) == ScannedLine(d, s, i + 1)
    ensures SeenCode(d, s, line, next) == SeenCode(d, s, line, i + 1)
    decreases next
  {
    if i + 1 < next {
      SkipHidden(d, s, line, i, next - 1);
      assert ClassOf(d, s, next - 1) != InCode;
    }
  }

  function Upto(s: string, i: nat): nat {
    if i < |s| then i else |s|
  }

  lemma NothingLater(d: Dialect, s: string, line: int, i: nat)
    requires i <= |s| && ScannedLine(d, s, i) > line
    ensures SeenCode(d, s, line, |s|) == SeenCode(d, s, line, i)
  {
    forall q: nat | i <= q < |s| ensures ScannedLine(d, s, q) > line {
      ScannedLineIsMonotone(d, s, i, q);
    }
  }

  // A newline closes a line comment and nothing else.
  lemma StepNewline(d: Dialect, s: string, state: State, quote: char, terminator: string, i: nat, q: nat)
    requires i < q < |s| && s[i] == '\n' && state != CodeState
    requires terminator != "" && NoNewline(terminator) && quote != '\n'
    ensures ClassAhead(d, s, state, quote, terminator, i, q)
         == if state == LineComment then ClassFrom(d, s, i + 1, q)
            else ClassAhead(d, s, state, quote, terminator, i + 1, q)
  {
    if state != StringState {
      var close := CloseOf(state, quote, terminator);
      BehindStep(s, close, i);
      if At(s, i, close) {
        assert s[i] == close[0];
      }
    }
  }

  lemma NewlineIsPlain(d: Dialect, s: string, i: nat, q: nat)
    requires i < q < |s| && s[i] == '\n'
    ensures ClassFrom(d, s, i, q) == ClassFrom(d, s, i + 1, q)
  {
    Openers(s, i);
    assert TokenAt(d, s, i) == Plain;
  }

  // The scan itself. It answers for the line number the scanner counts.
  method LineHasCode(s: string, lowerPath: string, word: char -> bool, line: int) returns (has: bool)
    ensures line <= 0 ==> has
    ensures line > 0 ==> has == ScannedLineHasCode(DialectFor(lowerPath, word), s, line)
  {
    if line <= 0 {
      return true;
    }
    var d := DialectFor(lowerPath, word);
    var state, quote, terminator := CodeState, '"', ")";
    var curLine := 1;
    has := false;
    var i := 0;
    while i < |s|
      invariant 0 <= i <= |s| + 1
      invariant terminator != "" && NoNewline(terminator) && quote != '\n'
      invariant forall q | i <= q < |s| :: ClassOf(d, s, q) == ClassAhead(d, s, state, quote, terminator, i, q)
      invariant curLine == ScannedLine(d, s, Upto(s, i))
      invariant has == SeenCode(d, s, line, Upto(s, i))
      decreases |s| + 1 - i
    {
      assert ClassOf(d, s, i) == if state == CodeState then InCode else Hidden;
      if curLine == line {
        if state == CodeState && !Structural(d, s, i) {
          has := true;
        }
      } else if curLine > line {
        NothingLater(d, s, line, i);
        break;
      }
      assert has == SeenCode(d, s, line, i + 1);
      if s[i] == '\n' {
        forall q | i + 1 <= q < |s| ensures ClassOf(d, s, q)
            == ClassAhead(d, s, if state == LineComment then CodeState else state, quote, terminator, i + 1, q) {
          if state == CodeState {
            NewlineIsPlain(d, s, i, q);
          } else {
            StepNewline(d, s, state, quote, terminator, i, q);
          }
        }
        if state == LineComment {
          state := CodeState;
        }
        curLine := curLine + 1;
        i := i + 1;
      } else {
        var next;
        if state == CodeState {
          ghost var was := i;
          state, quote, terminator, next := StepInCode(d, s, i);
          forall q: nat | i < q < next ensures q < |s| && s[q] != '\n' {
            OpeningHoldsNoNewline(d, s, i, q);
          }
          forall q: nat | i < q < |s|
            ensures q < next ==> ClassOf(d, s, q) == Hidden
            ensures next <= q ==> ClassOf(d, s, q) == ClassAhead(d, s, state, quote, terminator, next, q)
          {
            EnteredClass(d, s, state, quote, terminator, i, next, q);
          }
        } else {
          state, next := StepHidden(d, s, state, quote, terminator, i);
        }
        SkipHidden(d, s, line, i, Upto(s, next));
        i := next;
      }
    }
  }
}
