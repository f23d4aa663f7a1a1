/** The lines of a file in bytes, beside those of its text. A newline is one
    byte that is part of no other character, so that the bytes between newlines
    decode, one by one, to the lines of the decoded text, and the lines of a
    text encode to the bytes between newlines. Only a byte-order mark at the
    head of the file is skipped, which makes the first line a case of its own.
    A file is the join of its byte lines. */
module FileLines {
  import opened Text
  import opened Utf8

  type Bytes = seq<Byte>

  const NEWLINE: Byte := 10

  // The bytes between newlines; like Split, with an empty part at the end.
  function ByteLines(b: Bytes): (lines: seq<Bytes>)
    ensures |lines| >= 1
    ensures forall k | 0 <= k < |lines| :: NEWLINE !in lines[k]
  {
    if b == [] then [[]]
    else
      var rest := ByteLines(b[1..]);
      if b[0] == NEWLINE then [[]] + rest else [[b[0]] + rest[0]] + rest[1..]
  }

  function DecodeAll(lines: seq<Bytes>): (r: seq<string>)
    ensures |r| == |lines|
  {
    seq(|lines|, k requires 0 <= k < |lines| => Decode(lines[k]))
  }

  function EncodeAll(lines: seq<string>): (r: seq<Bytes>)
    ensures |r| == |lines|
  {
    seq(|lines|, k requires 0 <= k < |lines| => Encode(lines[k]))
  }

  lemma {:induction false} ByteLinesCons(line: Bytes, rest: Bytes)
    requires NEWLINE !in line
    ensures ByteLines(line + [NEWLINE] + rest) == [line] + ByteLines(rest)
  {
    var b := line + [NEWLINE] + rest;
    if line == [] {
      assert b[1..] == rest;
    } else {
      assert b[1..] == line[1..] + [NEWLINE] + rest;
      ByteLinesCons(line[1..], rest);
      assert [line[0]] + line[1..] == line;
    }
  }

  lemma {:induction false} ByteLinesOne(line: Bytes)
    requires NEWLINE !in line
    ensures ByteLines(line) == [line]
  {
    if line != [] {
      ByteLinesOne(line[1..]);
      assert [line[0]] + line[1..] == line;
    }
  }

  // A file is one line, or a line, a newline and the lines behind it.
  lemma {:induction false} FirstLine(b: Bytes) returns (line: Bytes, more: bool, rest: Bytes)
    ensures NEWLINE !in line
    ensures b == if more then line + [NEWLINE] + rest else line
    ensures ByteLines(b) == if more then [line] + ByteLines(rest) else [line]
    decreases |b|
  {
    if b == [] {
      line, more, rest := [], false, [];
    } else if b[0] == NEWLINE {
      line, more, rest := [], true, b[1..];
      assert b == [] + [NEWLINE] + rest;
    } else {
      line, more, rest := FirstLine(b[1..]);
      line := [b[0]] + line;
      assert b == [b[0]] + b[1..];
    }
    if more {
      ByteLinesCons(line, rest);
    } else {
      ByteLinesOne(line);
    }
  }

  // ------------------------------------------- decoding is line by line

  // A newline byte is no part of a longer character.
  lemma HeadBeforeNewline(a: Bytes, rest: Bytes)
    requires a != []
    ensures var b := a + [NEWLINE] + rest;
            HeadWidth(b) == HeadWidth(a) && (HeadWidth(a) > 0 ==> HeadChar(b) == HeadChar(a))
  {
    var b := a + [NEWLINE] + rest;
    assert forall k | 0 <= k < |a| :: b[k] == a[k];
    assert b[|a|] == NEWLINE;
  }

  lemma {:induction false} DecodeBeforeNewline(a: Bytes, rest: Bytes)
    ensures Decode(a + [NEWLINE] + rest) == Decode(a) + "\n" + Decode(rest)
    decreases |a|
  {
    var b := a + [NEWLINE] + rest;
    if a == [] {
      assert b[1..] == rest;
    } else {
      HeadBeforeNewline(a, rest);
      var w := if HeadWidth(a) == 0 then 1 else HeadWidth(a);
      var head := if HeadWidth(a) == 0 then REPLACEMENT else HeadChar(a);
      var tail := b[w..];
      assert tail == a[w..] + [NEWLINE] + rest;
      DecodeBeforeNewline(a[w..], rest);
      assert Decode(b) == [head] + Decode(tail);
      assert Decode(a) == [head] + Decode(a[w..]);
      Regroup(head, Decode(a[w..]), Decode(rest));
    }
  }

  lemma Regroup(head: char, a: string, rest: string)
    ensures [head] + (a + "\n" + rest) == ([head] + a) + "\n" + rest
  {
  }

  lemma {:induction false} DecodedIsOneLine(a: Bytes)
    requires NEWLINE !in a
    ensures OneLine(Decode(a))
    decreases |a|
  {
    if a != [] {
      var w := if HeadWidth(a) == 0 then 1 else HeadWidth(a);
      assert a[0] != NEWLINE;
      DecodedIsOneLine(a[w..]);
    }
  }

  lemma DecodeAllCons(line: Bytes, lines: seq<Bytes>)
    ensures DecodeAll([line] + lines) == [Decode(line)] + DecodeAll(lines)
  {
  }

  lemma EncodeAllCons(line: string, lines: seq<string>)
    ensures EncodeAll([line] + lines) == [Encode(line)] + EncodeAll(lines)
  {
  }

  lemma {:induction false} LinesDecode(b: Bytes)
    ensures Split(Decode(b)) == DecodeAll(ByteLines(b))
    decreases |b|
  {
    var line, more, rest := FirstLine(b);
    DecodedIsOneLine(line);
    if more {
      LinesDecode(rest);
      DecodeBeforeNewline(line, rest);
      SplitCons(Decode(line), Decode(rest));
      DecodeAllCons(line, ByteLines(rest));
    } else {
      SplitOne(Decode(line));
      DecodeAllCons(line, []);
    }
  }

  lemma {:induction false} EncodedHasNoNewline(line: string)
    requires OneLine(line)
    ensures NEWLINE !in Encode(line)
  {
    if line != "" {
      assert NEWLINE !in EncodeChar(line[0]);
      EncodedHasNoNewline(line[1..]);
    }
  }

  lemma {:induction false} LinesEncode(lines: seq<string>)
    requires lines != [] && AllOneLine(lines)
    ensures ByteLines(Encode(Join(lines))) == EncodeAll(lines)
  {
    assert OneLine(lines[0]);
    EncodedHasNoNewline(lines[0]);
    if |lines| == 1 {
      ByteLinesOne(Encode(lines[0]));
    } else {
      var rest := Join(lines[1..]);
      LinesEncode(lines[1..]);
      EncodeNewline(lines[0], rest);
      ByteLinesCons(Encode(lines[0]), Encode(rest));
      EncodeAllCons(lines[0], lines[1..]);
      assert [lines[0]] + lines[1..] == lines;
    }
  }

  lemma EncodeNewline(line: string, rest: string)
    ensures Encode(line + "\n" + rest) == Encode(line) + [NEWLINE] + Encode(rest)
  {
    EncodeConcat(line + "\n", rest);
    EncodeConcat(line, "\n");
    assert "\n"[1..] == "";
    assert Encode("\n") == [NEWLINE];
  }

  function JoinBytes(lines: seq<Bytes>): Bytes {
    if lines == [] then [] else if |lines| == 1 then lines[0] else lines[0] + [NEWLINE] + JoinBytes(lines[1..])
  }

  lemma {:induction false} ByteLinesOfJoin(lines: seq<Bytes>)
    requires lines != [] && forall k | 0 <= k < |lines| :: NEWLINE !in lines[k]
    ensures ByteLines(JoinBytes(lines)) == lines
  {
    if |lines| == 1 {
      ByteLinesOne(lines[0]);
    } else {
      ByteLinesOfJoin(lines[1..]);
      ByteLinesCons(lines[0], JoinBytes(lines[1..]));
    }
  }

  lemma {:induction false} JoinOfByteLines(b: Bytes)
    ensures JoinBytes(ByteLines(b)) == b
    decreases |b|
  {
    var line, more, rest := FirstLine(b);
    if more {
      JoinOfByteLines(rest);
      assert ByteLines(b)[1..] == ByteLines(rest);
    }
  }

  // What the program reads of line i: a mark at the head of the file is skipped.
  function TextOf(lines: seq<Bytes>, i: nat): string
    requires i < |lines|
  {
    if i == 0 then FromUtf8(lines[0]) else Decode(lines[i])
  }

  // A newline byte is no part of the mark.
  lemma MarkInFirst(b: Bytes)
    ensures HasMark(b) <==> HasMark(ByteLines(b)[0])
    ensures HasMark(b) ==> ByteLines(b[3..]) == [ByteLines(b)[0][3..]] + ByteLines(b)[1..]
  {
    var line, more, rest := FirstLine(b);
    assert ByteLines(b)[0] == line && ByteLines(b)[1..] == if more then ByteLines(rest) else [];
    MarkOfLine(line, more, rest);
    if HasMark(b) {
      if more {
        assert b[3..] == line[3..] + [NEWLINE] + rest;
        ByteLinesCons(line[3..], rest);
      } else {
        ByteLinesOne(line[3..]);
      }
    }
  }

  lemma MarkOfLine(line: Bytes, more: bool, rest: Bytes)
    ensures HasMark(if more then line + [NEWLINE] + rest else line) <==> HasMark(line)
  {
    if more {
      var b := line + [NEWLINE] + rest;
      assert forall k | 0 <= k < |line| :: b[k] == line[k];
      assert b[|line|] == NEWLINE;
    }
  }

  lemma LinesRead(b: Bytes)
    ensures |Split(FromUtf8(b))| == |ByteLines(b)|
    ensures forall i | 0 <= i < |ByteLines(b)| :: Split(FromUtf8(b))[i] == TextOf(ByteLines(b), i)
  {
    MarkInFirst(b);
    var text := if HasMark(b) then b[3..] else b;
    LinesDecode(text);
    var lines, read := ByteLines(b), ByteLines(text);
    assert |read| == |lines| && (forall i | 0 < i < |lines| :: read[i] == lines[i]);
    assert read[0] == if HasMark(lines[0]) then lines[0][3..] else lines[0];
  }

  lemma EncodeAllConcat(a: seq<string>, b: seq<string>)
    ensures EncodeAll(a + b) == EncodeAll(a) + EncodeAll(b)
  {
  }
}
