/** Paths as SARIF artifact locations and back (section 3.4 of SARIF 2.1.0):
    percent-encoding over UTF-8 bytes (section 2.1 of RFC 3986). */
module SarifUri {
  import opened Utf8

  datatype Location = Location(uri: string, underSrcRoot: bool)   // uriBaseId is %SRCROOT%

  const FILE_SCHEME := "file://"

  predicate Unreserved(b: int) {
    'A' as int <= b <= 'Z' as int || 'a' as int <= b <= 'z' as int || '0' as int <= b <= '9' as int
    || b == '-' as int || b == '.' as int || b == '_' as int || b == '~' as int
  }

  predicate Kept(b: int) {
    Unreserved(b) || b == '/' as int
  }

  function HexDigit(v: int): (c: char)
    requires 0 <= v < 16
    ensures IsHex(c as int) && HexValue(c as int) == v
    ensures Unreserved(c as int)
  {
    if v < 10 then (v + '0' as int) as char else (v - 10 + 'A' as int) as char
  }

  predicate IsHex(b: int) {
    '0' as int <= b <= '9' as int || 'A' as int <= b <= 'F' as int || 'a' as int <= b <= 'f' as int
  }

  function HexValue(b: int): (v: int)
    requires IsHex(b)
    ensures 0 <= v < 16
  {
    if b <= '9' as int then b - '0' as int
    else if b <= 'F' as int then b - 'A' as int + 10
    else b - 'a' as int + 10
  }

  function EncodeByte(b: Byte): (s: string)
    ensures |s| == 1 || |s| == 3
  {
    if Kept(b) then [b as char] else ['%', HexDigit(b / 16), HexDigit(b % 16)]
  }

  function PercentEncode(bytes: seq<Byte>): string {
    if bytes == [] then "" else EncodeByte(bytes[0]) + PercentEncode(bytes[1..])
  }

  predicate IsEscape(b: seq<Byte>) {
    |b| >= 3 && b[0] == '%' as int && IsHex(b[1]) && IsHex(b[2])
  }

  // Over the bytes of the URI; whatever is not an escape stays as it is.
  function PercentDecode(b: seq<Byte>): seq<Byte>
    decreases |b|
  {
    if b == [] then []
    else if IsEscape(b) then [16 * HexValue(b[1]) + HexValue(b[2])] + PercentDecode(b[3..])
    else [b[0]] + PercentDecode(b[1..])
  }

  function Escaped(path: string): string {
    PercentEncode(Encode(path))
  }

  function Unescaped(uri: string): string {
    FromUtf8(PercentDecode(Encode(uri)))
  }

  predicate HasScheme(uri: string) {
    FILE_SCHEME <= uri
  }

  // `absolute` is the file system's verdict on the path.
  function ArtifactLocation(absolute: bool, path: string): Location {
    if absolute then Location(FILE_SCHEME + Escaped(path), false)
    else Location(Escaped(path), true)
  }

  function LocationPath(location: Location): string {
    if HasScheme(location.uri) then Unescaped(location.uri[7..])
    else if location.underSrcRoot then Unescaped(location.uri)
    else location.uri
  }

  // -------------------------------------------------------------- round trips

  lemma EscapedByteReadsBack(b: Byte, rest: seq<Byte>)
    ensures PercentDecode(Encode(EncodeByte(b)) + rest) == [b] + PercentDecode(rest)
  {
    var s := EncodeByte(b);
    if Kept(b) {
      assert Encode(s) == [b];
      assert ([b] + rest)[1..] == rest;
    } else {
      var hi, lo := HexDigit(b / 16), HexDigit(b % 16);
      EncodeThree('%', hi, lo);
      var bytes := ['%' as int, hi as int, lo as int] + rest;
      assert Encode(s) + rest == bytes;
      assert bytes[3..] == rest;
      assert IsEscape(bytes);
    }
  }

  lemma EncodeThree(a: char, b: char, c: char)
    requires a < '\U{80}' && b < '\U{80}' && c < '\U{80}'
    ensures Encode([a, b, c]) == [a as int, b as int, c as int]
  {
    assert [a, b, c][1..] == [b, c] && [b, c][1..] == [c] && [c][1..] == [];
    assert Encode([c]) == [c as int];
    assert Encode([b, c]) == [b as int] + Encode([c]);
    assert Encode([a, b, c]) == [a as int] + Encode([b, c]);
  }

  lemma {:induction false} PercentRoundTrip(bytes: seq<Byte>)
    ensures PercentDecode(Encode(PercentEncode(bytes))) == bytes
  {
    if bytes != [] {
      var head, more := EncodeByte(bytes[0]), PercentEncode(bytes[1..]);
      EncodeConcat(head, more);
      EscapedByteReadsBack(bytes[0], Encode(more));
      PercentRoundTrip(bytes[1..]);
    }
  }

  lemma EscapedReadsBack(path: string)
    ensures Unescaped(Escaped(path)) == path <==> !StartsWithMark(path)
    ensures Unescaped(Escaped(path)) == WithoutMark(path)
  {
    PercentRoundTrip(Encode(path));
    ReadsBack(path);
  }

  // What an escaped path is made of: kept characters and two-digit escapes,
  // so no ':', no blank, no '#', and every '%' opens an escape.
  predicate UriSafe(uri: string)
    decreases |uri|
  {
    uri == ""
    || (Kept(uri[0] as int) && UriSafe(uri[1..]))
    || (|uri| >= 3 && uri[0] == '%' && IsHex(uri[1] as int) && IsHex(uri[2] as int) && UriSafe(uri[3..]))
  }

  lemma {:induction false} EscapedIsSafe(bytes: seq<Byte>)
    ensures UriSafe(PercentEncode(bytes))
  {
    if bytes != [] {
      EscapedIsSafe(bytes[1..]);
      var head, more := EncodeByte(bytes[0]), PercentEncode(bytes[1..]);
      assert (head + more)[|head|..] == more;
    }
  }

  lemma {:induction false} SafeCharacters(uri: string)
    requires UriSafe(uri)
    ensures forall k | 0 <= k < |uri| :: Kept(uri[k] as int) || uri[k] == '%'
    decreases |uri|
  {
    if uri != "" && uri[0] == '%' {
      SafeCharacters(uri[3..]);
      assert forall k | 3 <= k < |uri| :: uri[k] == uri[3..][k - 3];
    } else if uri != "" {
      SafeCharacters(uri[1..]);
      assert forall k | 1 <= k < |uri| :: uri[k] == uri[1..][k - 1];
    }
  }

  // A relative path never passes for an absolute one: its ':' is escaped.
  lemma EscapedHasNoScheme(path: string)
    ensures !HasScheme(Escaped(path))
  {
    var uri := Escaped(path);
    EscapedIsSafe(Encode(path));
    SafeCharacters(uri);
    assert FILE_SCHEME[4] == ':';
  }

  // A path, absolute or relative, reads back as itself exactly when it does not
  // start with a byte-order mark; with one, the mark alone is lost.
  lemma LocationReadsBack(absolute: bool, path: string)
    ensures LocationPath(ArtifactLocation(absolute, path)) == path <==> !StartsWithMark(path)
    ensures LocationPath(ArtifactLocation(absolute, path)) == WithoutMark(path)
  {
    EscapedReadsBack(path);
    if absolute {
      assert (FILE_SCHEME + Escaped(path))[7..] == Escaped(path);
    } else {
      EscapedHasNoScheme(path);
    }
  }

  // Two paths never share a location.
  lemma LocationIsInjective(absolute1: bool, path1: string, absolute2: bool, path2: string)
    requires ArtifactLocation(absolute1, path1) == ArtifactLocation(absolute2, path2)
    ensures path1 == path2 && absolute1 == absolute2
  {
    EscapedHasNoScheme(path1);
    EscapedHasNoScheme(path2);
    assert absolute1 == absolute2 by {
      assert absolute1 ==> HasScheme(ArtifactLocation(absolute1, path1).uri);
      assert absolute2 ==> HasScheme(ArtifactLocation(absolute2, path2).uri);
    }
    if absolute1 {
      assert (FILE_SCHEME + Escaped(path1))[7..] == Escaped(path1);
      assert (FILE_SCHEME + Escaped(path2))[7..] == Escaped(path2);
    }
    PercentRoundTrip(Encode(path1));
    PercentRoundTrip(Encode(path2));
    DecodeEncode(path1);
    DecodeEncode(path2);
  }

  // -------------------------------------------------------------- raw paths

  lemma {:induction false} UnescapedIsShorter(s: string)
    ensures |Decode(PercentDecode(Encode(s)))| <= |s|
    decreases |s|
  {
    if s != "" {
      var b := Encode(s);
      if IsEscape(b) {
        AsciiHead(s, 3);
        UnescapedIsShorter(s[3..]);
        DecodeLonger(16 * HexValue(b[1]) + HexValue(b[2]), PercentDecode(b[3..]));
      } else {
        PlainHead(s);
        UnescapedIsShorter(s[1..]);
        DecodeHead(s[0], PercentDecode(Encode(s[1..])));
      }
    }
  }

  // Leading ASCII bytes are leading characters.
  lemma {:induction false} AsciiHead(s: string, n: nat)
    requires n <= |Encode(s)| && forall k | 0 <= k < n :: IsAscii(Encode(s)[k])
    ensures n <= |s| && Encode(s)[n..] == Encode(s[n..])
  {
    if n == 0 {
      assert s[0..] == s;
    } else {
      var e, more := EncodeChar(s[0]), Encode(s[1..]);
      assert Encode(s) == e + more;
      assert Encode(s)[0] == e[0];
      assert forall k | 0 <= k < n - 1 :: more[k] == Encode(s)[k + 1];
      AsciiHead(s[1..], n - 1);
      assert s[n..] == s[1..][n - 1..];
      assert Encode(s)[n..] == more[n - 1..];
    }
  }

  // The bytes of one character are never an escape among themselves.
  lemma PlainHead(s: string)
    requires s != "" && !IsEscape(Encode(s))
    ensures PercentDecode(Encode(s)) == EncodeChar(s[0]) + PercentDecode(Encode(s[1..]))
  {
    var e, more := EncodeChar(s[0]), Encode(s[1..]);
    if |e| == 1 {
      assert (e + more)[1..] == more;
    } else {
      NonAsciiStays(e, more);
    }
  }

  lemma {:induction false} NonAsciiStays(e: seq<Byte>, more: seq<Byte>)
    requires forall k | 0 <= k < |e| :: !IsAscii(e[k])
    ensures PercentDecode(e + more) == e + PercentDecode(more)
  {
    if e == [] {
      assert e + more == more;
    } else {
      assert (e + more)[1..] == e[1..] + more;
      NonAsciiStays(e[1..], more);
    }
  }

  // An unmarked location is a raw path, as the headless runner writes it; it
  // reads back as itself exactly when it does not spell the scheme.
  lemma RawPathReadsBack(path: string)
    ensures LocationPath(Location(path, false)) == path <==> !HasScheme(path)
  {
    if HasScheme(path) {
      UnescapedIsShorter(path[7..]);
      FromUtf8DropsTheMark(PercentDecode(Encode(path[7..])));
    }
  }

  // ---------------------------------------------------- character by character

  predicate Stays(c: char) {
    || 'A' <= c <= 'Z' || 'a' <= c <= 'z' || '0' <= c <= '9'
    || c == '-' || c == '.' || c == '_' || c == '~' || c == '/'
  }

  function Digit(v: int): char
    requires 0 <= v < 16
  {
    match v
    case 10 => 'A'
    case 11 => 'B'
    case 12 => 'C'
    case 13 => 'D'
    case 14 => 'E'
    case 15 => 'F'
    case _ => ('0' as int + v) as char
  }

  // Each byte as a percent sign and two digits.
  function AllEscaped(bytes: seq<Byte>): string {
    if bytes == [] then ""
    else ['%', Digit(bytes[0] / 16), Digit(bytes[0] % 16)] + AllEscaped(bytes[1..])
  }

  lemma DigitIs(v: int)
    requires 0 <= v < 16
    ensures HexDigit(v) == Digit(v)
  {
  }

  lemma {:induction false} EscapedBytes(bytes: seq<Byte>)
    requires forall k | 0 <= k < |bytes| :: !Kept(bytes[k])
    ensures PercentEncode(bytes) == AllEscaped(bytes)
  {
    if bytes != [] {
      DigitIs(bytes[0] / 16);
      DigitIs(bytes[0] % 16);
      EscapedBytes(bytes[1..]);
    }
  }

  lemma {:induction false} PercentConcat(a: seq<Byte>, b: seq<Byte>)
    ensures PercentEncode(a + b) == PercentEncode(a) + PercentEncode(b)
  {
    if a == [] {
      assert a + b == b;
    } else {
      assert (a + b)[1..] == a[1..] + b;
      PercentConcat(a[1..], b);
    }
  }

  // Letters, digits and `-._~/` stay; every other character is written as the
  // bytes of its UTF-8 form, two digits each.
  lemma EscapedTells(path: string, c: char)
    ensures Escaped("") == ""
    ensures Escaped(path + [c]) == Escaped(path) + (if Stays(c) then [c] else AllEscaped(EncodeChar(c)))
  {
    EncodeConcat(path, [c]);
    assert [c][1..] == "" && Encode([c]) == EncodeChar(c);
    PercentConcat(Encode(path), EncodeChar(c));
    OneEscaped(c);
  }

  lemma OneEscaped(c: char)
    ensures PercentEncode(EncodeChar(c)) == if Stays(c) then [c] else AllEscaped(EncodeChar(c))
  {
    if Stays(c) {
      assert EncodeChar(c) == [c as int] && [c as int][1..] == [];
    } else {
      NothingKept(c);
      EscapedBytes(EncodeChar(c));
    }
  }

  lemma NothingKept(c: char)
    requires !Stays(c)
    ensures forall k | 0 <= k < |EncodeChar(c)| :: !Kept(EncodeChar(c)[k])
  {
  }

  // An absolute path becomes a file URI, any other one a URI under the root.
  lemma LocationTells(path: string)
    ensures ArtifactLocation(true, path) == Location("file://" + Escaped(path), false)
    ensures ArtifactLocation(false, path) == Location(Escaped(path), true)
  {
  }
}
