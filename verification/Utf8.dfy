/** UTF-8 over Unicode scalar values, as QString converts to and from bytes.
    A byte that starts no character decodes to U+FFFD, and so does each byte of
    a sequence that is cut short, too long for its value, or spells a surrogate.
    Encoding never fails, so only the way from bytes to text has cases. What the
    other modules need is that a text survives the trip, whatever bytes follow
    it, and that one byte more never gives more than one character more. */
module Utf8 {

  type Byte = b: int | 0 <= b < 256

  predicate IsAscii(b: Byte) {
    b < 0x80
  }

  predicate IsContinuation(b: Byte) {
    0x80 <= b < 0xC0
  }

  const REPLACEMENT: char := '\U{FFFD}'

  function EncodeChar(c: char): (bytes: seq<Byte>)
    ensures 1 <= |bytes| <= 4
    ensures IsAscii(bytes[0]) <==> |bytes| == 1
    ensures IsAscii(bytes[0]) <==> c < '\U{80}'
    ensures !IsContinuation(bytes[0])
    ensures forall k | 1 <= k < |bytes| :: IsContinuation(bytes[k])
  {
    var n := c as int;
    if n < 0x80 then [n]
    else if n < 0x800 then [0xC0 + n / 64, 0x80 + n % 64]
    else if n < 0x10000 then [0xE0 + n / 4096, 0x80 + n / 64 % 64, 0x80 + n % 64]
    else [0xF0 + n / 262144, 0x80 + n / 4096 % 64, 0x80 + n / 64 % 64, 0x80 + n % 64]
  }

  function Encode(s: string): seq<Byte> {
    if s == "" then [] else EncodeChar(s[0]) + Encode(s[1..])
  }

  predicate IsScalar(n: int) {
    0 <= n < 0xD800 || 0xE000 <= n < 0x110000
  }

  // The code number spelled by 2, 3 or 4 bytes.
  function Value2(a: int, b: int): int { (a - 0xC0) * 64 + (b - 0x80) }

  function Value3(a: int, b: int, c: int): int { (a - 0xE0) * 4096 + (b - 0x80) * 64 + (c - 0x80) }

  function Value4(a: int, b: int, c: int, d: int): int {
    (a - 0xF0) * 262144 + (b - 0x80) * 4096 + (c - 0x80) * 64 + (d - 0x80)
  }

  // Bytes 1 to n - 1 exist and continue the first one.
  predicate Continued(b: seq<Byte>, n: nat) {
    |b| >= n && forall k | 1 <= k < n :: IsContinuation(b[k])
  }

  // How many bytes the character at the head takes; 0 when there is none.
  function HeadWidth(b: seq<Byte>): (n: nat)
    requires b != []
    ensures n <= |b| && Continued(b, n)
    ensures IsContinuation(b[0]) ==> n == 0
    ensures IsAscii(b[0]) <==> n == 1
    ensures |b| == 1 ==> n <= 1
  {
    if b[0] < 0x80 then 1
    else if 0xC2 <= b[0] < 0xE0 && Continued(b, 2) then 2
    else if 0xE0 <= b[0] < 0xF0 && Continued(b, 3)
            && Value3(b[0], b[1], b[2]) >= 0x800 && IsScalar(Value3(b[0], b[1], b[2])) then 3
    else if 0xF0 <= b[0] < 0xF5 && Continued(b, 4)
            && 0x10000 <= Value4(b[0], b[1], b[2], b[3]) < 0x110000 then 4
    else 0
  }

  function HeadChar(b: seq<Byte>): char
    requires b != [] && HeadWidth(b) > 0
  {
    if HeadWidth(b) == 1 then b[0] as char
    else if HeadWidth(b) == 2 then Value2(b[0], b[1]) as char
    else if HeadWidth(b) == 3 then Value3(b[0], b[1], b[2]) as char
    else Value4(b[0], b[1], b[2], b[3]) as char
  }

  function Decode(b: seq<Byte>): string
    decreases |b|
  {
    if b == [] then ""
    else if HeadWidth(b) == 0 then [REPLACEMENT] + Decode(b[1..])
    else [HeadChar(b)] + Decode(b[HeadWidth(b)..])
  }

  // ---------------------------------------------------------- byte-order mark

  const MARK: char := '\U{FEFF}'

  predicate StartsWithMark(s: string) {
    s != "" && s[0] == MARK
  }

  function WithoutMark(s: string): string {
    if StartsWithMark(s) then s[1..] else s
  }

  predicate HasMark(b: seq<Byte>) {
    |b| >= 3 && b[0] == 0xEF && b[1] == 0xBB && b[2] == 0xBF
  }

  // QString::fromUtf8 takes one leading mark for a header and skips it.
  function FromUtf8(b: seq<Byte>): string {
    Decode(if HasMark(b) then b[3..] else b)
  }

  lemma MarkIsThreeBytes(a: int, b: int, c: int)
    requires 0xE0 <= a < 0xF0 && 0x80 <= b < 0xC0 && 0x80 <= c < 0xC0
    ensures Value3(a, b, c) == 0xFEFF <==> a == 0xEF && b == 0xBB && c == 0xBF
  {
  }

  lemma HeadIsMark(b: seq<Byte>)
    requires b != []
    ensures HasMark(b) <==> HeadWidth(b) > 0 && HeadChar(b) == MARK
  {
    if |b| >= 3 && 0xE0 <= b[0] < 0xF0 && Continued(b, 3) {
      MarkIsThreeBytes(b[0], b[1], b[2]);
    }
  }

  // Skipping the header is dropping the character it decodes to.
  lemma FromUtf8DropsTheMark(b: seq<Byte>)
    ensures FromUtf8(b) == WithoutMark(Decode(b))
    ensures StartsWithMark(Decode(b)) <==> HasMark(b)
  {
    if b != [] {
      HeadIsMark(b);
    }
  }

  // A text reads back from its bytes exactly when it does not start with a mark.
  lemma ReadsBack(s: string)
    ensures FromUtf8(Encode(s)) == WithoutMark(s)
    ensures FromUtf8(Encode(s)) == s <==> !StartsWithMark(s)
  {
    DecodeEncode(s);
    FromUtf8DropsTheMark(Encode(s));
  }

  lemma DecodeEncode(s: string)
    ensures Decode(Encode(s)) == s
  {
    RoundTrip(s, []);
    assert Encode(s) + [] == Encode(s);
    assert s + Decode([]) == s;
  }

  // --------------------------------------------------------------- round trip

  lemma Digits2(n: int)
    requires 0x80 <= n < 0x800
    ensures 0xC2 <= 0xC0 + n / 64 < 0xE0
    ensures Value2(0xC0 + n / 64, 0x80 + n % 64) == n
  {
  }

  lemma Digits3(n: int)
    requires 0x800 <= n < 0x10000
    ensures 0xE0 <= 0xE0 + n / 4096 < 0xF0
    ensures Value3(0xE0 + n / 4096, 0x80 + n / 64 % 64, 0x80 + n % 64) == n
  {
    assert n / 64 / 64 == n / 4096;
  }

  lemma Digits4(n: int)
    requires 0x10000 <= n < 0x110000
    ensures 0xF0 <= 0xF0 + n / 262144 < 0xF5
    ensures Value4(0xF0 + n / 262144, 0x80 + n / 4096 % 64, 0x80 + n / 64 % 64, 0x80 + n % 64) == n
  {
    assert n / 64 / 64 == n / 4096;
    assert n / 4096 / 64 == n / 262144;
  }

  lemma HeadOfEncoded(c: char, b: seq<Byte>)
    requires EncodeChar(c) <= b
    ensures HeadWidth(b) == |EncodeChar(c)| && HeadChar(b) == c
  {
    var n := c as int;
    var e := EncodeChar(c);
    assert forall k | 0 <= k < |e| :: b[k] == e[k];
    if n < 0x80 {
    } else if n < 0x800 {
      Digits2(n);
    } else if n < 0x10000 {
      Digits3(n);
    } else {
      Digits4(n);
    }
  }

  lemma DecodeHead(c: char, more: seq<Byte>)
    ensures Decode(EncodeChar(c) + more) == [c] + Decode(more)
  {
    var e := EncodeChar(c);
    HeadOfEncoded(c, e + more);
    assert (e + more)[|e|..] == more;
  }

  lemma FirstJoins(s: string, tail: string)
    requires s != ""
    ensures [s[0]] + (s[1..] + tail) == s + tail
  {
  }

  // Every text survives the trip through its bytes, whatever bytes follow.
  lemma {:induction false} RoundTrip(s: string, rest: seq<Byte>)
    ensures Decode(Encode(s) + rest) == s + Decode(rest)
  {
    if s == "" {
      assert Encode(s) + rest == rest;
    } else {
      ghost var more := Encode(s[1..]) + rest;
      assert Encode(s) + rest == EncodeChar(s[0]) + more;
      calc {
        Decode(EncodeChar(s[0]) + more);
        { DecodeHead(s[0], more); }
        [s[0]] + Decode(more);
        { RoundTrip(s[1..], rest); }
        [s[0]] + (s[1..] + Decode(rest));
        { FirstJoins(s, Decode(rest)); }
        s + Decode(rest);
      }
    }
  }

  lemma {:induction false} EncodeConcat(a: string, b: string)
    ensures Encode(a + b) == Encode(a) + Encode(b)
    decreases |a|
  {
    if a == "" {
      assert a + b == b;
    } else {
      assert (a + b)[1..] == a[1..] + b;
      EncodeConcat(a[1..], b);
    }
  }

  // One more byte in front adds at most one character: a character it opens
  // takes bytes that would each have been a U+FFFD of their own.
  lemma DecodeLonger(byte: Byte, rest: seq<Byte>)
    ensures |Decode([byte] + rest)| <= 1 + |Decode(rest)|
  {
    var b := [byte] + rest;
    var w := HeadWidth(b);
    if w <= 1 {
      assert b[1..] == rest;
    } else {
      assert b[w..] == rest[w - 1..];
      assert forall k | 0 <= k < w - 1 :: rest[k] == b[k + 1];
      StrayContinuations(rest, w - 1);
    }
  }

  lemma {:induction false} StrayContinuations(b: seq<Byte>, n: nat)
    requires n <= |b| && forall k | 0 <= k < n :: IsContinuation(b[k])
    ensures |Decode(b)| == n + |Decode(b[n..])|
  {
    if n == 0 {
      assert b[0..] == b;
    } else {
      assert b[1..][n - 1..] == b[n..];
      StrayContinuations(b[1..], n - 1);
    }
  }

  // ------------------------------------------------------- back from bytes

  // Bytes that are characters from end to end.
  predicate IsUtf8(b: seq<Byte>)
    decreases |b|
  {
    b == [] || (HeadWidth(b) > 0 && IsUtf8(b[HeadWidth(b)..]))
  }

  lemma HeadEncodes(b: seq<Byte>)
    requires b != [] && HeadWidth(b) > 0
    ensures EncodeChar(HeadChar(b)) == b[..HeadWidth(b)]
  {
    var w := HeadWidth(b);
    if w == 2 {
      var n := Value2(b[0], b[1]);
      assert n / 64 == b[0] - 0xC0 && n % 64 == b[1] - 0x80;
    } else if w == 3 {
      Back3(b[0], b[1], b[2]);
    } else if w == 4 {
      Back4(b[0], b[1], b[2], b[3]);
    }
  }

  lemma Back3(a: int, b: int, c: int)
    requires 0xE0 <= a < 0xF0 && 0x80 <= b < 0xC0 && 0x80 <= c < 0xC0
    ensures var n := Value3(a, b, c);
            n / 4096 == a - 0xE0 && n / 64 % 64 == b - 0x80 && n % 64 == c - 0x80
  {
    var n := Value3(a, b, c);
    assert n / 64 == (a - 0xE0) * 64 + (b - 0x80);
  }

  lemma Back4(a: int, b: int, c: int, d: int)
    requires 0xF0 <= a < 0xF5 && 0x80 <= b < 0xC0 && 0x80 <= c < 0xC0 && 0x80 <= d < 0xC0
    ensures var n := Value4(a, b, c, d);
            n / 262144 == a - 0xF0 && n / 4096 % 64 == b - 0x80 && n / 64 % 64 == c - 0x80 && n % 64 == d - 0x80
  {
    var n := Value4(a, b, c, d);
    assert n / 64 == (a - 0xF0) * 4096 + (b - 0x80) * 64 + (c - 0x80);
    assert n / 4096 == (a - 0xF0) * 64 + (b - 0x80);
  }

  // Bytes read back from their text exactly when they are UTF-8: U+FFFD is
  // three bytes that no stray byte starts.
  lemma {:induction false} BytesReadBack(b: seq<Byte>)
    ensures Encode(Decode(b)) == b <==> IsUtf8(b)
    decreases |b|
  {
    if b != [] {
      var w := HeadWidth(b);
      if w > 0 {
        HeadEncodes(b);
        BytesReadBack(b[w..]);
        var own, rest := b[..w], b[w..];
        assert b == own + rest;
        assert Decode(b)[1..] == Decode(rest);
        SameTail(own, Encode(Decode(rest)), rest);
      } else {
        assert Decode(b)[1..] == Decode(b[1..]);
        StrayIsReplaced(b, Encode(Decode(b[1..])));
      }
    }
  }

  lemma SameTail<T>(head: seq<T>, a: seq<T>, b: seq<T>)
    ensures head + a == head + b <==> a == b
  {
    assert (head + a)[|head|..] == a && (head + b)[|head|..] == b;
  }

  lemma StrayIsReplaced(b: seq<Byte>, rest: seq<Byte>)
    requires b != [] && HeadWidth(b) == 0
    ensures EncodeChar(REPLACEMENT) + rest != b
  {
    var e := EncodeChar(REPLACEMENT);
    assert e == [0xEF, 0xBF, 0xBD];
    if e + rest == b {
      HeadOfEncoded(REPLACEMENT, b);
      assert false;
    }
  }

  // A mark at the head is skipped, and its bytes do not come back.
  lemma FileReadsBack(b: seq<Byte>)
    ensures Encode(FromUtf8(b)) == b <==> IsUtf8(b) && !HasMark(b)
  {
    if HasMark(b) {
      NeverGainsAMark(b[..3], b[3..]);
      assert b == b[..3] + b[3..];
    } else {
      BytesReadBack(b);
    }
  }

  lemma {:induction false} NeverGainsAMark(mark: seq<Byte>, b: seq<Byte>)
    requires mark == [0xEF, 0xBB, 0xBF]
    ensures Encode(Decode(b)) != mark + b
    decreases |b|
  {
    if HasMark(b) {
      var rest := b[3..];
      assert b == mark + rest;
      MarkEncodes(mark, rest);
      SameTail(mark, Encode(Decode(rest)), b);
      NeverGainsAMark(mark, rest);
    } else {
      DecodeEncode(Decode(b));
      FromUtf8DropsTheMark(Encode(Decode(b)));
      FromUtf8DropsTheMark(b);
      assert HasMark(mark + b);
    }
  }

  lemma MarkEncodes(mark: seq<Byte>, rest: seq<Byte>)
    requires mark == [0xEF, 0xBB, 0xBF]
    ensures Encode(Decode(mark + rest)) == mark + Encode(Decode(rest))
  {
    var b := mark + rest;
    HeadIsMark(b);
    HeadEncodes(b);
    assert b[3..] == rest && b[..3] == mark;
    assert Decode(b)[1..] == Decode(rest);
  }

  // The characters that section 7 of RFC 3629 gives as examples, and one of two
  // bytes.
  lemma KnownBytes()
    ensures EncodeChar('A') == [0x41] && EncodeChar('\U{E9}') == [0xC3, 0xA9]
    ensures EncodeChar('\U{391}') == [0xCE, 0x91] && EncodeChar('\U{2262}') == [0xE2, 0x89, 0xA2]
    ensures EncodeChar('\U{65E5}') == [0xE6, 0x97, 0xA5] && EncodeChar('\U{D55C}') == [0xED, 0x95, 0x9C]
    ensures EncodeChar('\U{FEFF}') == [0xEF, 0xBB, 0xBF] && EncodeChar('\U{233B4}') == [0xF0, 0xA3, 0x8E, 0xB4]
  {
  }
}
