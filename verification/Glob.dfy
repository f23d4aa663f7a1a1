/** Path globs compiled to anchored regular expressions, left to right. The
    emitted text is told piece by piece; it is read back as the regex engine
    reads it, and matched; and that is compared with matching the glob directly
    against the path. */
module Glob {
  import opened Options

  // ------------------------------------------------------------- the compiler

  predicate IsWordChar(c: char) {
    'a' <= c <= 'z' || 'A' <= c <= 'Z' || '0' <= c <= '9' || c == '_'
  }

  // QRegularExpression::escape of one character.
  function Escape(c: char): string {
    if c == '\0' then "\\0" else if IsWordChar(c) then [c] else ['\\', c]
  }

  predicate StartsDouble(glob: string) {
    |glob| >= 2 && glob[0] == '*' && glob[1] == '*'
  }

  // How many characters of the glob the next piece of regex covers.
  function Width(glob: string): nat
    requires glob != ""
  {
    if StartsDouble(glob) then 2 else 1
  }

  function Chunk(glob: string): string
    requires glob != ""
  {
    if StartsDouble(glob) then ".*"
    else if glob[0] == '*' then "[^/]*"
    else if glob[0] == '?' then "[^/]"
    else Escape(glob[0])
  }

  function Body(glob: string): string {
    if glob == "" then "" else Chunk(glob) + Body(glob[Width(glob)..])
  }

  lemma BodyStep(glob: string, i: nat, before: string)
    requires i < |glob|
    ensures var double := glob[i] == '*' && i + 1 < |glob| && glob[i + 1] == '*';
            var piece := if double then ".*" else if glob[i] == '*' then "[^/]*" else if glob[i] == '?' then "[^/]"
                else Escape(glob[i]);
            before + Body(glob[i..]) == before + piece + Body(glob[if double then i + 2 else i + 1..])
  {
    var rest := glob[i..];
    assert rest[Width(rest)..] == glob[i + Width(rest)..];
    assert before + (Chunk(rest) + Body(rest[Width(rest)..])) == before + Chunk(rest) + Body(rest[Width(rest)..]);
  }

  method GlobToRegex(glob: string) returns (re: string)
    ensures re == "^" + Body(glob) + "$"
  {
    re := "^";
    var i := 0;
    assert glob[0..] == glob;
    while i < |glob|
      invariant 0 <= i <= |glob|
      invariant re + Body(glob[i..]) == "^" + Body(glob)
    {
      BodyStep(glob, i, re);
      var c := glob[i];
      if c == '*' && i + 1 < |glob| && glob[i + 1] == '*' {
        re := re + ".*";
        i := i + 1;
      } else if c == '*' {
        re := re + "[^/]*";
      } else if c == '?' {
        re := re + "[^/]";
      } else {
        re := re + Escape(c);
      }
      i := i + 1;
    }
    assert glob[i..] == "";
    re := re + "$";
  }

  // ------------------------------------------------------ what the engine reads

  datatype Atom = AnyStar | SegmentStar | SegmentOne | Literal(c: char)

  predicate IsOctal(c: char) {
    '0' <= c <= '7'
  }

  function Digit(c: char): nat
    requires IsOctal(c)
  {
    (c as int) - ('0' as int)
  }

  // Octal digits behind \0, at most two.
  function OctalRun(s: string): (n: nat)
    ensures n <= 2 && n <= |s|
    ensures forall k | 0 <= k < n :: IsOctal(s[k])
  {
    if |s| == 0 || !IsOctal(s[0]) then 0
    else if |s| == 1 || !IsOctal(s[1]) then 1
    else 2
  }

  function OctalChar(s: string): char {
    var n := OctalRun(s);
    if n == 0 then '\0' else if n == 1 then Digit(s[0]) as char else (8 * Digit(s[0]) + Digit(s[1])) as char
  }

  function Cons(a: Atom, rest: Option<seq<Atom>>): Option<seq<Atom>> {
    if rest.Some? then Some([a] + rest.value) else None
  }

  predicate AtDotStar(s: string) {
    |s| >= 2 && s[0] == '.' && s[1] == '*'
  }

  predicate AtNotSlash(s: string) {
    |s| >= 4 && s[0] == '[' && s[1] == '^' && s[2] == '/' && s[3] == ']'
  }

  // The part of regex syntax the compiler emits, behind ^ up to the final $.
  function ParseBody(s: string): Option<seq<Atom>>
    decreases |s|
  {
    if |s| == 1 && s[0] == '$' then Some([])
    else if AtDotStar(s) then Cons(AnyStar, ParseBody(s[2..]))
    else if AtNotSlash(s) && |s| >= 5 && s[4] == '*' then Cons(SegmentStar, ParseBody(s[5..]))
    else if AtNotSlash(s) then Cons(SegmentOne, ParseBody(s[4..]))
    else if |s| >= 2 && s[0] == '\\' && s[1] == '0' then
      Cons(Literal(OctalChar(s[2..])), ParseBody(s[2 + OctalRun(s[2..])..]))
    else if |s| >= 2 && s[0] == '\\' && !IsWordChar(s[1]) then Cons(Literal(s[1]), ParseBody(s[2..]))
    else if |s| >= 1 && IsWordChar(s[0]) then Cons(Literal(s[0]), ParseBody(s[1..]))
    else None
  }

  function Parse(re: string): Option<seq<Atom>> {
    if |re| >= 1 && re[0] == '^' then ParseBody(re[1..]) else None
  }

  // `.` stops at a newline, [^/] does not; $ also stands before a final one.
  predicate Matches(atoms: seq<Atom>, p: string)
    decreases |atoms|, |p|
  {
    if atoms == [] then p == "" || p == "\n"
    else
      match atoms[0]
      case Literal(c) => p != "" && p[0] == c && Matches(atoms[1..], p[1..])
      case SegmentOne => p != "" && p[0] != '/' && Matches(atoms[1..], p[1..])
      case SegmentStar => Matches(atoms[1..], p) || (p != "" && p[0] != '/' && Matches(atoms, p[1..]))
      case AnyStar => Matches(atoms[1..], p) || (p != "" && p[0] != '\n' && Matches(atoms, p[1..]))
  }

  predicate RegexMatches(re: string, p: string) {
    Parse(re).Some? && Matches(Parse(re).value, p)
  }

  // ----------------------------------------------------- the glob, read directly

  // `**` spans slashes, `*` and `?` do not; `***` is `**` and then `*`.
  predicate GlobMatches(glob: string, p: string)
    decreases |glob|, |p|
  {
    if glob == "" then p == ""
    else if StartsDouble(glob) then GlobMatches(glob[2..], p) || (p != "" && GlobMatches(glob, p[1..]))
    else if glob[0] == '*' then GlobMatches(glob[1..], p) || (p != "" && p[0] != '/' && GlobMatches(glob, p[1..]))
    else if glob[0] == '?' then p != "" && p[0] != '/' && GlobMatches(glob[1..], p[1..])
    else p != "" && p[0] == glob[0] && GlobMatches(glob[1..], p[1..])
  }

  // ------------------------------------------------- what the compiled text says

  // The atoms of a glob as the engine reads them: digits behind a NUL are
  // taken into its escape.
  function Read(glob: string): seq<Atom>
    decreases |glob|
  {
    if glob == "" then []
    else if StartsDouble(glob) then [AnyStar] + Read(glob[2..])
    else if glob[0] == '*' then [SegmentStar] + Read(glob[1..])
    else if glob[0] == '?' then [SegmentOne] + Read(glob[1..])
    else if glob[0] == '\0' then [Literal(OctalChar(glob[1..]))] + Read(glob[1 + OctalRun(glob[1..])..])
    else [Literal(glob[0])] + Read(glob[1..])
  }

  // The text behind a chunk never looks like a continuation of it.
  lemma BodyStart(glob: string)
    ensures var t := Body(glob) + "$";
            && t != "" && t[0] != '*'
            && (IsOctal(t[0]) <==> glob != "" && IsOctal(glob[0]))
            && (glob != "" && IsWordChar(glob[0]) ==> t == [glob[0]] + (Body(glob[1..]) + "$"))
  {
    if glob != "" {
      var rest := glob[Width(glob)..];
      assert Body(glob) + "$" == Chunk(glob) + (Body(rest) + "$");
    }
  }

  lemma OctalSame(glob: string)
    ensures OctalRun(Body(glob) + "$") == OctalRun(glob) && OctalChar(Body(glob) + "$") == OctalChar(glob)
    ensures (Body(glob) + "$")[OctalRun(glob)..] == Body(glob[OctalRun(glob)..]) + "$"
  {
    BodyStart(glob);
    var n := OctalRun(glob);
    if n >= 1 {
      BodyStart(glob[1..]);
      if n == 2 {
        TwoOff(glob, Body(glob) + "$", Body(glob[1..]) + "$");
      }
    }
  }

  lemma TwoOff(glob: string, u: string, v: string)
    requires |glob| >= 2 && |u| >= 2 && u[1..] == v && v == Body(glob[1..]) + "$"
    requires v[1..] == Body(glob[1..][1..]) + "$"
    ensures u[2..] == Body(glob[2..]) + "$"
  {
    assert glob[1..][1..] == glob[2..];
    assert u[2..] == v[1..];
  }

  lemma ParseDotStar(u: string)
    ensures ParseBody(".*" + u) == Cons(AnyStar, ParseBody(u))
  {
    assert (".*" + u)[2..] == u;
  }

  lemma ParseSegmentStar(u: string)
    ensures ParseBody("[^/]*" + u) == Cons(SegmentStar, ParseBody(u))
  {
    assert ("[^/]*" + u)[5..] == u;
  }

  lemma ParseSegmentOne(u: string)
    requires u != "" && u[0] != '*'
    ensures ParseBody("[^/]" + u) == Cons(SegmentOne, ParseBody(u))
  {
    var s := "[^/]" + u;
    assert s[4..] == u && s[4] == u[0];
  }

  lemma ParseNul(u: string)
    ensures ParseBody("\\0" + u) == Cons(Literal(OctalChar(u)), ParseBody(u[OctalRun(u)..]))
  {
    var s := "\\0" + u;
    var n := OctalRun(u);
    assert s[2..] == u;
    assert s[2 + n..] == u[n..] by { DropTwice(s, u, n); }
    assert s[0] == '\\' && s[1] == '0' && !AtDotStar(s) && !AtNotSlash(s);
  }

  lemma DropTwice(s: string, u: string, n: nat)
    requires |s| >= 2 && s[2..] == u && n <= |u|
    ensures s[2 + n..] == u[n..]
  {
  }

  lemma ParseLiteral(c: char, u: string)
    requires c != '\0' && u != ""
    ensures ParseBody(Escape(c) + u) == Cons(Literal(c), ParseBody(u))
  {
    var s := Escape(c) + u;
    if IsWordChar(c) {
      assert s[1..] == u;
    } else {
      assert s[2..] == u;
    }
  }

  // Reading back what the compiler wrote, for every glob.
  lemma {:induction false} BodyParses(glob: string)
    ensures ParseBody(Body(glob) + "$") == Some(Read(glob))
    decreases |glob|
  {
    if glob != "" {
      var rest := glob[Width(glob)..];
      var u := Body(rest) + "$";
      assert Body(glob) + "$" == Chunk(glob) + u;
      BodyStart(rest);
      if StartsDouble(glob) {
        BodyParses(rest);
        ParseDotStar(u);
      } else if glob[0] == '*' {
        BodyParses(rest);
        ParseSegmentStar(u);
      } else if glob[0] == '?' {
        BodyParses(rest);
        ParseSegmentOne(u);
      } else if glob[0] == '\0' {
        ParseNul(u);
        OctalSame(rest);
        assert glob[1 + OctalRun(rest)..] == rest[OctalRun(rest)..];
        BodyParses(rest[OctalRun(rest)..]);
      } else {
        BodyParses(rest);
        ParseLiteral(glob[0], u);
      }
    }
  }

  // The compiler's output parses, and to the glob's atoms.
  lemma CompiledReadsBack(glob: string)
    ensures Parse("^" + Body(glob) + "$") == Some(Read(glob))
  {
    BodyParses(glob);
    assert ("^" + Body(glob) + "$")[1..] == Body(glob) + "$";
  }

  // ------------------------------------------------------------- main results

  predicate NulThenOctal(glob: string) {
    exists k :: 0 <= k < |glob| - 1 && glob[k] == '\0' && IsOctal(glob[k + 1])
  }

  lemma NulThenOctalTail(glob: string, k: nat)
    requires k <= |glob| && !NulThenOctal(glob)
    ensures !NulThenOctal(glob[k..])
  {
    var tail := glob[k..];
    forall j | 0 <= j < |tail| - 1 ensures !(tail[j] == '\0' && IsOctal(tail[j + 1])) {
      assert tail[j] == glob[k + j] && tail[j + 1] == glob[k + j + 1];
    }
  }

  lemma {:induction false} AtomsMatchAsGlob(glob: string, p: string)
    requires '\n' !in p && !NulThenOctal(glob)
    ensures Matches(Read(glob), p) == GlobMatches(glob, p)
    decreases |glob|, |p|
  {
    if glob != "" {
      var rest := glob[Width(glob)..];
      NulThenOctalTail(glob, Width(glob));
      if glob[0] == '\0' {
        assert OctalRun(glob[1..]) == 0;
        assert glob[1..][0..] == glob[1..];
      }
      var atoms := Read(glob);
      assert atoms[1..] == Read(rest);
      AtomsMatchAsGlob(rest, p);
      if p != "" {
        AtomsMatchAsGlob(rest, p[1..]);
        AtomsMatchAsGlob(glob, p[1..]);
      }
    }
  }

  // For every glob and every path without a newline, the compiled expression
  // matches what the glob matches.
  lemma RegexIsGlob(glob: string, p: string)
    requires '\n' !in p && !NulThenOctal(glob)
    ensures RegexMatches("^" + Body(glob) + "$", p) == GlobMatches(glob, p)
  {
    CompiledReadsBack(glob);
    AtomsMatchAsGlob(glob, p);
  }

  // ---- exactly which globs

  // Characters that every match needs, one each.
  function Fixed(atoms: seq<Atom>): nat {
    if atoms == [] then 0 else (if atoms[0].Literal? || atoms[0].SegmentOne? then 1 else 0) + Fixed(atoms[1..])
  }

  function MinLength(glob: string): nat {
    if glob == "" then 0 else (if glob[0] == '*' then 0 else 1) + MinLength(glob[Width(glob)..])
  }

  function Instance(atoms: seq<Atom>): string {
    if atoms == [] then ""
    else (match atoms[0] case Literal(c) => [c] case SegmentOne => "a" case _ => "") + Instance(atoms[1..])
  }

  lemma {:induction false} InstanceMatches(atoms: seq<Atom>)
    ensures Matches(atoms, Instance(atoms)) && |Instance(atoms)| == Fixed(atoms)
    ensures '\n' in Instance(atoms) ==> Literal('\n') in atoms
  {
    if atoms != [] {
      InstanceMatches(atoms[1..]);
      var rest := Instance(atoms[1..]);
      if atoms[0].Literal? || atoms[0].SegmentOne? {
        assert Instance(atoms)[1..] == rest;
      } else {
        assert Instance(atoms) == rest;
      }
    }
  }

  lemma {:induction false} GlobNeedsLength(glob: string, p: string)
    requires GlobMatches(glob, p)
    ensures |p| >= MinLength(glob)
    decreases |glob|, |p|
  {
    if glob != "" {
      var rest := glob[Width(glob)..];
      if glob[0] == '*' {
        if GlobMatches(rest, p) { GlobNeedsLength(rest, p); } else { GlobNeedsLength(glob, p[1..]); }
      } else {
        GlobNeedsLength(rest, p[1..]);
      }
    }
  }

  lemma {:induction false} MinLengthDrops(glob: string, n: nat)
    requires n <= |glob| && forall k | 0 <= k < n :: IsOctal(glob[k])
    ensures MinLength(glob) == n + MinLength(glob[n..])
    decreases |glob|
  {
    if n > 0 {
      MinLengthDrops(glob[1..], n - 1);
      assert glob[1..][n - 1..] == glob[n..];
    } else {
      assert glob[0..] == glob;
    }
  }

  // Digits swallowed behind a NUL leave fewer characters to match.
  lemma {:induction false} ReadIsShorter(glob: string)
    ensures Fixed(Read(glob)) <= MinLength(glob)
    ensures NulThenOctal(glob) ==> Fixed(Read(glob)) < MinLength(glob)
    decreases |glob|
  {
    if glob != "" {
      var rest := glob[Width(glob)..];
      var atoms := Read(glob);
      if glob[0] == '\0' {
        var n := OctalRun(rest);
        assert glob[1 + n..] == rest[n..];
        assert atoms[1..] == Read(rest[n..]);
        ReadIsShorter(rest[n..]);
        MinLengthDrops(rest, n);
        if NulThenOctal(glob) && n == 0 {
          assert rest[0..] == rest;
          TailHasNulOctal(glob);
        }
      } else {
        assert atoms[1..] == Read(rest);
        ReadIsShorter(rest);
        if NulThenOctal(glob) {
          TailHasNulOctal(glob);
        }
      }
    }
  }

  lemma TailHasNulOctal(glob: string)
    requires NulThenOctal(glob) && (glob[0] != '\0' || OctalRun(glob[1..]) == 0)
    ensures NulThenOctal(glob[Width(glob)..])
  {
    var w := Width(glob);
    var k :| 0 <= k < |glob| - 1 && glob[k] == '\0' && IsOctal(glob[k + 1]);
    assert glob[1..][0] == glob[1];
    assert k > 0;
    assert glob[w..][k - w] == '\0' && IsOctal(glob[w..][k - w + 1]);
  }

  lemma {:induction false} NewlineAtomNeedsNewline(atoms: seq<Atom>, p: string)
    requires Literal('\n') in atoms && '\n' !in p
    ensures !Matches(atoms, p)
    decreases |atoms|, |p|
  {
    if atoms[0] != Literal('\n') {
      assert Literal('\n') in atoms[1..];
      NewlineAtomNeedsNewline(atoms[1..], p);
      if p != "" {
        NewlineAtomNeedsNewline(atoms[1..], p[1..]);
        NewlineAtomNeedsNewline(atoms, p[1..]);
      }
    }
  }

  lemma {:induction false} NewlineGlobNeedsNewline(glob: string, p: string)
    requires '\n' in glob && '\n' !in p
    ensures !GlobMatches(glob, p)
    decreases |glob|, |p|
  {
    if glob[0] != '\n' {
      var rest := glob[Width(glob)..];
      assert '\n' in rest;
      NewlineGlobNeedsNewline(rest, p);
      if p != "" {
        NewlineGlobNeedsNewline(rest, p[1..]);
        NewlineGlobNeedsNewline(glob, p[1..]);
      }
    }
  }

  lemma {:induction false} NewlineIsRead(glob: string)
    requires '\n' in glob
    ensures Literal('\n') in Read(glob)
    decreases |glob|
  {
    if glob[0] == '\n' {
      assert Read(glob)[0] == Literal('\n');
    } else if glob[0] == '\0' {
      var n := OctalRun(glob[1..]);
      assert '\n' in glob[1 + n..] by {
        var k :| 0 <= k < |glob| && glob[k] == '\n';
        assert k >= 1 + n by {
          assert forall j | 0 <= j < n :: IsOctal(glob[1..][j]) && glob[1..][j] == glob[j + 1];
        }
        assert glob[1 + n..][k - 1 - n] == '\n';
      }
      NewlineIsRead(glob[1 + n..]);
    } else {
      var rest := glob[Width(glob)..];
      assert '\n' in rest;
      NewlineIsRead(rest);
    }
  }

  function GlobInstance(glob: string): string {
    if glob == "" then ""
    else (if glob[0] == '*' then "" else if glob[0] == '?' then "a" else [glob[0]]) + GlobInstance(glob[Width(glob)..])
  }

  lemma {:induction false} GlobInstanceMatches(glob: string)
    ensures GlobMatches(glob, GlobInstance(glob))
    ensures '\n' !in glob ==> '\n' !in GlobInstance(glob)
    decreases |glob|
  {
    if glob != "" {
      var rest := glob[Width(glob)..];
      GlobInstanceMatches(rest);
      if glob[0] == '*' {
        assert GlobInstance(glob) == GlobInstance(rest);
      } else {
        assert GlobInstance(glob)[1..] == GlobInstance(rest);
      }
    }
  }

  ghost predicate AgreesOnPlainPaths(glob: string) {
    forall p: string | '\n' !in p :: RegexMatches("^" + Body(glob) + "$", p) == GlobMatches(glob, p)
  }

  // The globs that mean the same compiled: all but those with an octal digit
  // behind a NUL, which the escape takes in, and a newline keeps even those.
  lemma CompiledExactly(glob: string)
    ensures AgreesOnPlainPaths(glob) <==> (!NulThenOctal(glob) || '\n' in glob)
  {
    CompiledReadsBack(glob);
    var atoms := Read(glob);
    if !NulThenOctal(glob) {
      forall p: string | '\n' !in p ensures RegexMatches("^" + Body(glob) + "$", p) == GlobMatches(glob, p) {
        RegexIsGlob(glob, p);
      }
    } else if '\n' in glob {
      NewlineIsRead(glob);
      forall p: string | '\n' !in p ensures !RegexMatches("^" + Body(glob) + "$", p) && !GlobMatches(glob, p) {
        NewlineAtomNeedsNewline(atoms, p);
        NewlineGlobNeedsNewline(glob, p);
      }
    } else if Literal('\n') in atoms {
      var p := GlobInstance(glob);
      GlobInstanceMatches(glob);
      NewlineAtomNeedsNewline(atoms, p);
      assert RegexMatches("^" + Body(glob) + "$", p) != GlobMatches(glob, p);
    } else {
      var p := Instance(atoms);
      InstanceMatches(atoms);
      ReadIsShorter(glob);
      if GlobMatches(glob, p) { GlobNeedsLength(glob, p); }
      assert RegexMatches("^" + Body(glob) + "$", p) != GlobMatches(glob, p);
    }
  }

  // ---- exactly which paths

  ghost predicate AgreesOnAllGlobs(p: string) {
    forall glob: string | !NulThenOctal(glob) :: RegexMatches("^" + Body(glob) + "$", p) == GlobMatches(glob, p)
  }

  // A glob for exactly the paths that read like q but for `?` places.
  function Shield(q: string): string {
    seq(|q|, k requires 0 <= k < |q| => if q[k] == '*' || q[k] == '?' || q[k] == '\0' then '?' else q[k])
  }

  lemma {:induction false} ShieldMatches(q: string)
    ensures !NulThenOctal(Shield(q))
    ensures Matches(Read(Shield(q)), q + "\n")
  {
    if q != "" {
      ShieldMatches(q[1..]);
      assert Shield(q)[1..] == Shield(q[1..]);
      assert Read(Shield(q))[1..] == Read(Shield(q[1..]));
      assert (q + "\n")[1..] == q[1..] + "\n";
      assert forall k | 0 <= k < |q| :: Shield(q)[k] != '\0';
    } else {
      assert q + "\n" == "\n";
    }
  }

  lemma {:induction false} ShieldFits(q: string, p: string)
    ensures GlobMatches(Shield(q), p) ==> |p| == |q|
    decreases |q|
  {
    if q != "" {
      assert Shield(q)[1..] == Shield(q[1..]);
      if p != "" {
        ShieldFits(q[1..], p[1..]);
      }
    }
  }

  lemma {:induction false} DoubleStarSpans(p: string)
    ensures GlobMatches("**", p)
    ensures Matches([AnyStar], p) ==> forall k | 0 <= k < |p| - 1 :: p[k] != '\n'
    decreases |p|
  {
    assert "**"[2..] == "";
    assert [AnyStar][1..] == [];
    if p != "" {
      DoubleStarSpans(p[1..]);
      if Matches([AnyStar], p) && !Matches([], p) {
        forall k | 0 <= k < |p| - 1 ensures p[k] != '\n' {
          if k > 0 { assert p[1..][k - 1] == p[k]; }
        }
      }
    }
  }

  // The paths on which every glob means the same compiled: those without a
  // newline. The dot stops at one, and $ stands before a final one.
  lemma PathsExactly(p: string)
    ensures AgreesOnAllGlobs(p) <==> '\n' !in p
  {
    if '\n' !in p {
      forall glob: string | !NulThenOctal(glob)
          ensures RegexMatches("^" + Body(glob) + "$", p) == GlobMatches(glob, p) {
        RegexIsGlob(glob, p);
      }
    } else if k :| 0 <= k < |p| - 1 && p[k] == '\n' {
      DoubleStarSpans(p);
      CompiledReadsBack("**");
      assert "**"[2..] == "" && Read("**") == [AnyStar];
      assert !NulThenOctal("**");
      assert !AgreesOnAllGlobs(p);
    } else {
      var q := p[..|p| - 1];
      assert p == q + "\n";
      var glob := Shield(q);
      ShieldMatches(q);
      CompiledReadsBack(glob);
      ShieldFits(q, p);
      assert RegexMatches("^" + Body(glob) + "$", p) && !GlobMatches(glob, p);
      assert !AgreesOnAllGlobs(p);
    }
  }

  // ------------------------------------------------------------ what a glob is

  lemma {:induction false} StarTakesSegment(p: string)
    ensures GlobMatches("*", p) <==> forall k | 0 <= k < |p| :: p[k] != '/'
    decreases |p|
  {
    assert "*"[1..] == "";
    if p != "" {
      StarTakesSegment(p[1..]);
      assert forall k | 1 <= k < |p| :: p[k] == p[1..][k - 1];
    }
  }

  lemma {:induction false} DoubleStarTakesAll(p: string)
    ensures GlobMatches("**", p)
    decreases |p|
  {
    assert "**"[2..] == "";
    if p != "" {
      DoubleStarTakesAll(p[1..]);
    }
  }

  // What is written for the front of a glob; the rest of it follows.
  lemma TextTells(c: char, rest: string)
    ensures Body("") == ""
    ensures Body("**" + rest) == ".*" + Body(rest)
    ensures !("*" <= rest) ==> Body("*" + rest) == "[^/]*" + Body(rest)
    ensures Body("?" + rest) == "[^/]" + Body(rest)
    ensures Body("\0" + rest) == "\\0" + Body(rest)
    ensures 'a' <= c <= 'z' || 'A' <= c <= 'Z' || '0' <= c <= '9' || c == '_' ==> Body([c] + rest) == [c] + Body(rest)
    ensures 'a' <= c <= 'z' || 'A' <= c <= 'Z' || '0' <= c <= '9' || c in "_*?\0"
        || Body([c] + rest) == ['\\', c] + Body(rest)
  {
    FrontText("*" + ("*" + rest));
    assert "**" + rest == "*" + ("*" + rest) && ("*" + ("*" + rest))[2..] == rest;
    FrontText("*" + rest);
    FrontText("?" + rest);
    FrontText("\0" + rest);
    FrontText([c] + rest);
    assert ("*" + rest)[1..] == ("?" + rest)[1..] == ("\0" + rest)[1..] == ([c] + rest)[1..] == rest;
  }

  lemma FrontText(glob: string)
    requires glob != ""
    ensures Body(glob) == Chunk(glob) + Body(glob[Width(glob)..])
  {
  }

  // Alone, `?` is one character and `*` any number of them, none a slash; `**`
  // is everything, and any other character itself.
  lemma PieceTells(c: char, p: string)
    ensures GlobMatches("?", p) <==> |p| == 1 && p[0] != '/'
    ensures GlobMatches("*", p) <==> forall k | 0 <= k < |p| :: p[k] != '/'
    ensures GlobMatches("**", p)
    ensures c != '?' && c != '*' ==> (GlobMatches([c], p) <==> p == [c])
  {
    StarTakesSegment(p);
    DoubleStarTakesAll(p);
    assert "?"[1..] == "" && [c][1..] == "";
  }

  // A glob that begins with a character matches what begins with it, and goes
  // on as the rest of the glob does.
  lemma {:induction false} PrefixTells(prefix: string, glob: string, p: string)
    requires forall k | 0 <= k < |prefix| :: prefix[k] != '?' && prefix[k] != '*'
    ensures GlobMatches(prefix + glob, p) <==> prefix <= p && GlobMatches(glob, p[|prefix|..])
    decreases |prefix|
  {
    if prefix == "" {
      assert prefix + glob == glob && p[0..] == p;
    } else {
      assert (prefix + glob)[1..] == prefix[1..] + glob;
      if p != "" {
        PrefixTells(prefix[1..], glob, p[1..]);
        if prefix <= p {
          assert p[1..][|prefix| - 1..] == p[|prefix|..];
        }
        assert prefix <= p <==> prefix[0] == p[0] && prefix[1..] <= p[1..];
      }
    }
  }
}
