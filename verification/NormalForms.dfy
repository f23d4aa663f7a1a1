/** The two normal forms of the near-miss report, read off the text: of its
    spacing the words of the text, in order and with one space between them; of
    its punctuation the characters from the front, with each run of dashes, each
    curly quote and each ellipsis as it is typed on a keyboard. */
module NormalForms {
  import opened NearMiss

  // ------------------------------------------------------------------ spacing

  predicate Gap(c: char) {
    c == ' ' || c == '\t'
  }

  // The words of a text: its longest runs without a blank or a tab.
  function Words(s: string): (ws: seq<string>)
    ensures ws == [] <==> forall k | 0 <= k < |s| :: Gap(s[k])
  {
    if s == "" then []
    else
      var front, c := s[..|s| - 1], s[|s| - 1];
      var ws := Words(front);
      if Gap(c) then ws
      else if front != "" && !Gap(front[|front| - 1]) then ws[|ws| - 1 := ws[|ws| - 1] + [c]]
      else ws + [[c]]
  }

  function Joined(ws: seq<string>): string {
    if ws == [] then ""
    else if |ws| == 1 then ws[0]
    else Joined(ws[..|ws| - 1]) + " " + ws[|ws| - 1]
  }

  lemma JoinedGrows(ws: seq<string>, w: string)
    ensures Joined(ws + [w]) == if ws == [] then w else Joined(ws) + " " + w
  {
    assert (ws + [w])[..|ws|] == ws;
  }

  lemma LastWordGrows(ws: seq<string>, c: char)
    requires ws != []
    ensures Joined(ws[|ws| - 1 := ws[|ws| - 1] + [c]]) == Joined(ws) + [c]
  {
    var last := |ws| - 1;
    var front := ws[..last];
    assert ws == front + [ws[last]] && ws[last := ws[last] + [c]] == front + [ws[last] + [c]];
    JoinedGrows(front, ws[last]);
    JoinedGrows(front, ws[last] + [c]);
  }

  // One space between the words, and none outside.
  lemma {:induction false} SpacingJoinsWords(s: string)
    ensures WsNormalised(s) == Joined(Words(s))
    ensures SpacedOf(s).pending <==> Words(s) != [] && Gap(s[|s| - 1])
  {
    if s != "" {
      var front, c := Front(s), Last(s);
      SpacingJoinsWords(front);
      SpacedTail(front);
      WordsAreNotEmpty(front);
      if !Gap(c) {
        if front != "" && !Gap(front[|front| - 1]) {
          LastWordGrows(Words(front), c);
        } else {
          JoinedGrows(Words(front), [c]);
        }
      }
    }
  }

  lemma {:induction false} WordsAreNotEmpty(s: string)
    ensures Words(s) != [] ==> Joined(Words(s)) != ""
    ensures forall k | 0 <= k < |Words(s)| :: Words(s)[k] != ""
  {
    if s != "" {
      WordsAreNotEmpty(s[..|s| - 1]);
      var ws := Words(s);
      if |ws| > 1 {
        assert ws == ws[..|ws| - 1] + [ws[|ws| - 1]];
        JoinedGrows(ws[..|ws| - 1], ws[|ws| - 1]);
      }
    }
  }

  // -------------------------------------------------------------- punctuation

  predicate Dash(c: char) {
    c == '-' || c == '\U{2013}' || c == '\U{2014}'
  }

  function DashRun(s: string): (n: nat)
    ensures n <= |s| && forall k | 0 <= k < n :: Dash(s[k])
    ensures n < |s| ==> !Dash(s[n])
  {
    if s != "" && Dash(s[0]) then 1 + DashRun(s[1..]) else 0
  }

  // The quotation marks and the ellipsis that are typed in ASCII.
  function Typed(c: char): string {
    match c
    case '\U{2018}' => "'"
    case '\U{2019}' => "'"
    case '\U{201C}' => "\""
    case '\U{201D}' => "\""
    case '\U{2026}' => "..."
    case _ => [c]
  }

  // From the front: a run of dashes is one hyphen, everything else as typed.
  function Retyped(s: string): string
    decreases |s|
  {
    if s == "" then ""
    else if Dash(s[0]) then "-" + Retyped(s[DashRun(s)..])
    else Typed(s[0]) + Retyped(s[1..])
  }

  lemma {:induction false} RetypedGrows(s: string, c: char)
    ensures Retyped(s + [c])
         == if Dash(c) then if s != "" && Dash(s[|s| - 1]) then Retyped(s) else Retyped(s) + "-"
            else Retyped(s) + Typed(c)
    decreases |s|
  {
    var t := s + [c];
    if s == "" {
      assert t[1..] == "" && t[DashRun(t)..] == if Dash(c) then "" else t;
    } else if Dash(s[0]) {
      var n := DashRun(s);
      RunGrows(s, c);
      if n < |s| {
        assert t[n..] == s[n..] + [c];
        RetypedGrows(s[n..], c);
      } else {
        assert s[n..] == "";
        if Dash(c) {
          assert t[n + 1..] == "";
        } else {
          assert t[n..] == [c] && [c][1..] == "";
        }
      }
    } else {
      assert t[1..] == s[1..] + [c];
      RetypedGrows(s[1..], c);
    }
  }

  lemma {:induction false} RunGrows(s: string, c: char)
    ensures DashRun(s + [c]) == if DashRun(s) == |s| && Dash(c) then |s| + 1 else DashRun(s)
  {
    if s == "" {
      assert ([] + [c])[1..] == [];
    } else if Dash(s[0]) {
      assert (s + [c])[1..] == s[1..] + [c];
      RunGrows(s[1..], c);
    }
  }

  lemma {:induction false} FoldingRetypes(s: string)
    ensures PunctFolded(s) == Retyped(s)
  {
    if s != "" {
      var front, c := Front(s), Last(s);
      assert s == front + [c];
      FoldingRetypes(front);
      FoldTail(front);
      RetypedGrows(front, c);
    }
  }
}
