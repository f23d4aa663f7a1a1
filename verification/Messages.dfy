/** Capping a finding's message in bytes; the character the cut falls into
    comes back as a three-byte U+FFFD. */
module Messages {
  import opened Utf8

  const MAX_BYTES: nat := 256
  const ELLIPSIS: char := '\U{2026}'

  // The bytes kept in front of the ellipsis, which takes three.
  const KEPT: nat := MAX_BYTES - 3

  function DropContinuations(u: seq<Byte>): seq<Byte>
    decreases |u|
  {
    if u != [] && IsContinuation(u[|u| - 1]) then DropContinuations(u[..|u| - 1]) else u
  }

  function Capped(message: string): string {
    var u := Encode(message);
    if |u| <= MAX_BYTES then message else FromUtf8(DropContinuations(u[..KEPT])) + [ELLIPSIS]
  }

  method CapMessage(message: string) returns (r: string)
    ensures r == Capped(message)
  {
    var u := Encode(message);
    if |u| <= MAX_BYTES { return message; }
    u := u[..KEPT];
    while u != [] && IsContinuation(u[|u| - 1])
      invariant DropContinuations(u) == DropContinuations(Encode(message)[..KEPT])
      decreases |u|
    {
      u := u[..|u| - 1];
    }
    r := FromUtf8(u) + [ELLIPSIS];
  }

  // ------------------------------------------------------------------ shape

  // Which character of the text owns byte n.
  function OwnerOf(message: string, n: nat): (m: nat)
    requires n < |Encode(message)|
    ensures m < |message|
    decreases |message|
  {
    var w := |EncodeChar(message[0])|;
    if n < w then 0 else 1 + OwnerOf(message[1..], n - w)
  }

  lemma {:induction false} OwnerSplits(message: string, n: nat)
    requires n < |Encode(message)|
    ensures var m := OwnerOf(message, n); var before := Encode(message[..m]); var own := EncodeChar(message[m]);
            |before| <= n < |before| + |own| && before + own <= Encode(message)
    decreases |message|
  {
    var own := EncodeChar(message[0]);
    var w := |own|;
    if n < w {
      assert message[..0] == "";
    } else {
      var rest := message[1..];
      OwnerSplits(rest, n - w);
      var m := OwnerOf(rest, n - w);
      assert message[..m + 1] == [message[0]] + rest[..m];
      EncodeConcat([message[0]], rest[..m]);
      EncodeOne(message[0]);
      Prefixed(own, Encode(rest[..m]), EncodeChar(rest[m]), Encode(rest));
    }
  }

  lemma EncodeOne(c: char)
    ensures Encode([c]) == EncodeChar(c)
  {
    assert [c][1..] == "";
  }

  lemma Prefixed<T>(first: seq<T>, before: seq<T>, own: seq<T>, rest: seq<T>)
    requires before + own <= rest
    ensures (first + before) + own <= first + rest
  {
    assert (first + before) + own == first + (before + own);
  }

  lemma {:induction false} TailDrops(keep: seq<Byte>, tail: seq<Byte>)
    requires keep != [] && !IsContinuation(keep[|keep| - 1])
    requires forall k | 0 <= k < |tail| :: IsContinuation(tail[k])
    ensures DropContinuations(keep + tail) == keep
    decreases |tail|
  {
    if tail == [] {
      assert keep + tail == keep;
    } else {
      assert (keep + tail)[..|keep + tail| - 1] == keep + tail[..|tail| - 1];
      TailDrops(keep, tail[..|tail| - 1]);
    }
  }

  lemma LoneByte(c: char)
    ensures Decode([EncodeChar(c)[0]]) == if c < '\U{80}' then [c] else [REPLACEMENT]
  {
    var b := [EncodeChar(c)[0]];
    assert b[1..] == [];
    if c < '\U{80}' {
      HeadOfEncoded(c, b);
    }
  }

  // What the cut keeps: the characters before the one that owns the last kept
  // byte, and the first byte of that one, whole or not.
  lemma CutKeepsTheLead(message: string)
    requires |Encode(message)| > MAX_BYTES
    ensures var m := OwnerOf(message, KEPT - 1);
            DropContinuations(Encode(message)[..KEPT]) == Encode(message[..m]) + [EncodeChar(message[m])[0]]
  {
    var u := Encode(message);
    var m := OwnerOf(message, KEPT - 1);
    OwnerSplits(message, KEPT - 1);
    var before, own := Encode(message[..m]), EncodeChar(message[m]);
    var p := KEPT - |before|;
    assert u[..KEPT] == before + own[..p] by {
      assert u[..|before| + |own|] == before + own;
      assert u[..KEPT] == (before + own)[..KEPT];
    }
    assert before + own[..p] == (before + [own[0]]) + own[1..p];
    TailDrops(before + [own[0]], own[1..p]);
  }

  lemma OwnerIsNotFirst(message: string)
    requires |Encode(message)| > MAX_BYTES
    ensures OwnerOf(message, KEPT - 1) > 0
  {
    OwnerSplits(message, KEPT - 1);
    assert message[..0] == "";
  }

  lemma MarkOfPrefix(message: string, m: nat, last: char)
    requires 0 < m <= |message|
    ensures WithoutMark(message[..m] + [last]) == WithoutMark(message[..m]) + [last]
    ensures StartsWithMark(message[..m]) <==> StartsWithMark(message)
  {
    if StartsWithMark(message) {
      assert (message[..m] + [last])[1..] == message[..m][1..] + [last];
    }
  }

  // A long message becomes a run of its own first characters, but for a leading
  // byte-order mark, one more that is a U+FFFD unless it was ASCII, and the
  // ellipsis.
  lemma CapShape(message: string)
    requires |Encode(message)| > MAX_BYTES
    ensures var m := OwnerOf(message, KEPT - 1);
            Capped(message)
            == WithoutMark(message[..m]) + [if message[m] < '\U{80}' then message[m] else REPLACEMENT, ELLIPSIS]
  {
    var m := OwnerOf(message, KEPT - 1);
    var c := message[m];
    CutKeepsTheLead(message);
    RoundTrip(message[..m], [EncodeChar(c)[0]]);
    LoneByte(c);
    var last := if c < '\U{80}' then c else REPLACEMENT;
    OwnerIsNotFirst(message);
    FromUtf8DropsTheMark(Encode(message[..m]) + [EncodeChar(c)[0]]);
    MarkOfPrefix(message, m, last);
    assert (WithoutMark(message[..m]) + [last]) + [ELLIPSIS] == WithoutMark(message[..m]) + [last, ELLIPSIS];
  }

  // The message was short, or the last kept byte is ASCII, or at least two
  // continuation bytes end the kept part.
  predicate CutIsCheap(u: seq<Byte>) {
    |u| <= MAX_BYTES || IsAscii(u[KEPT - 1]) || (IsContinuation(u[KEPT - 1]) && IsContinuation(u[KEPT - 2]))
  }

  lemma CappedBytes(message: string)
    requires |Encode(message)| > MAX_BYTES
    ensures var m := OwnerOf(message, KEPT - 1);
            |Encode(Capped(message))|
            == |Encode(message[..m])| - (if StartsWithMark(message) then 3 else 0)
               + (if message[m] < '\U{80}' then 1 else 3) + 3
  {
    var m := OwnerOf(message, KEPT - 1);
    var last := if message[m] < '\U{80}' then message[m] else REPLACEMENT;
    CapShape(message);
    OwnerIsNotFirst(message);
    MarkOfPrefix(message, m, last);
    MarkBytes(message[..m]);
    EncodeConcat(WithoutMark(message[..m]), [last, ELLIPSIS]);
    assert [last, ELLIPSIS] == [last] + [ELLIPSIS];
    EncodeConcat([last], [ELLIPSIS]);
    EncodeOne(last);
    EncodeOne(ELLIPSIS);
  }

  lemma MarkBytes(s: string)
    ensures |Encode(WithoutMark(s))| == |Encode(s)| - if StartsWithMark(s) then 3 else 0
  {
  }

  // Reading the condition off the character that owns the last kept byte.
  lemma CheapCut(before: seq<Byte>, c: char, u: seq<Byte>)
    requires before + EncodeChar(c) <= u && |before| < KEPT <= |before| + |EncodeChar(c)| && |u| > MAX_BYTES
    ensures CutIsCheap(u) <==> c < '\U{80}' || |before| + 3 <= KEPT
  {
    var own := EncodeChar(c);
    var n := |before|;
    assert forall k | 0 <= k < |own| :: u[n + k] == own[k] by {
      assert u[..n + |own|] == before + own;
    }
    assert u[KEPT - 1] == own[KEPT - 1 - n];
    if n <= KEPT - 2 {
      assert u[KEPT - 2] == own[KEPT - 2 - n];
    }
  }

  // The byte cap is met exactly when the cut is cheap, or a byte-order mark
  // that is lost makes room.
  lemma CapIsMet(message: string)
    ensures |Encode(Capped(message))| <= MAX_BYTES <==> CutIsCheap(Encode(message)) || StartsWithMark(message)
  {
    var u := Encode(message);
    if |u| > MAX_BYTES {
      var m := OwnerOf(message, KEPT - 1);
      CappedBytes(message);
      OwnerSplits(message, KEPT - 1);
      CheapCut(Encode(message[..m]), message[m], u);
    }
  }

  // The overshoot is at most two bytes.
  lemma CapIsNearlyMet(message: string)
    ensures |Encode(Capped(message))| <= MAX_BYTES + 2
  {
    if |Encode(message)| > MAX_BYTES {
      CappedBytes(message);
      OwnerSplits(message, KEPT - 1);
    }
  }

  // A message of 250 letters and four characters of two bytes each goes over.
  lemma CapIsMissed(message: string)
    requires |message| == 254
    requires forall k | 0 <= k < 254 :: message[k] == if k < 250 then 'a' else '\U{E9}'
    ensures |Encode(Capped(message))| > MAX_BYTES
  {
    var letters, accents := message[..250], message[250..];
    assert message == letters + accents;
    EncodeConcat(letters, accents);
    AsciiBytes(letters);
    assert accents == ['\U{E9}', '\U{E9}', '\U{E9}', '\U{E9}'];
    FourAccents();
    var u := Encode(message);
    assert |u| == 258;
    assert u[KEPT - 1] == Encode(accents)[2];
    CapIsMet(message);
  }

  lemma {:induction false} AsciiBytes(s: string)
    requires forall k | 0 <= k < |s| :: s[k] < '\U{80}'
    ensures |Encode(s)| == |s|
  {
    if s != "" {
      AsciiBytes(s[1..]);
    }
  }

  lemma FourAccents()
    ensures Encode(['\U{E9}', '\U{E9}', '\U{E9}', '\U{E9}']) == [0xC3, 0xA9, 0xC3, 0xA9, 0xC3, 0xA9, 0xC3, 0xA9]
  {
    var e := EncodeChar('\U{E9}');
    EncodeOne('\U{E9}');
    EncodeConcat(['\U{E9}'], ['\U{E9}']);
    assert ['\U{E9}'] + ['\U{E9}'] == ['\U{E9}', '\U{E9}'];
    EncodeConcat(['\U{E9}', '\U{E9}'], ['\U{E9}', '\U{E9}']);
    assert ['\U{E9}', '\U{E9}'] + ['\U{E9}', '\U{E9}'] == ['\U{E9}', '\U{E9}', '\U{E9}', '\U{E9}'];
  }

  // A message of at most 256 bytes stays. Of a longer one the characters that
  // end within the first 252 bytes stay, but for a mark at the head; then the
  // next one, or a U+FFFD for it if it is not ASCII, and an ellipsis.
  lemma MessageTells(message: string) returns (m: nat)
    ensures m <= |message|
    ensures |Encode(message)| <= 256 ==> Capped(message) == message
    ensures |Encode(message)| > 256 ==>
      0 < m < |message| && |Encode(message[..m])| <= 252 < |Encode(message[..m + 1])|
      && Capped(message)
         == (if message[0] == '\U{FEFF}' then message[1..m] else message[..m])
            + [if message[m] < '\U{80}' then message[m] else '\U{FFFD}'] + ['\U{2026}']
  {
    m := 0;
    if |Encode(message)| > 256 {
      m := OwnerOf(message, KEPT - 1);
      CapShape(message);
      OwnerSplits(message, KEPT - 1);
      OwnerIsNotFirst(message);
      EncodeNext(message, m);
      HeadOf(message, m);
    }
  }

  lemma EncodeNext(message: string, m: nat)
    requires m < |message|
    ensures |Encode(message[..m + 1])| == |Encode(message[..m])| + |EncodeChar(message[m])|
  {
    assert message[..m + 1] == message[..m] + [message[m]];
    EncodeConcat(message[..m], [message[m]]);
    EncodeOne(message[m]);
  }

  lemma HeadOf(message: string, m: nat)
    requires 0 < m <= |message|
    ensures message[..m][0] == message[0] && message[..m][1..] == message[1..m]
  {
  }
}
