/** Splitting a line into tokens at blanks, with some characters standing as tokens of their own. */
module Lexing {

  /** Which characters separate tokens, and which are tokens by themselves. */
  datatype Classes = Classes(blank: char -> bool, single: char -> bool) {
    predicate Ends(c: char) {
      blank(c) || single(c)
    }
  }

  /** The first position at or after `k` where a token ends. */
  function TokenEnd(s: string, k: nat, cls: Classes): (e: nat)
    requires k <= |s|
    ensures k <= e <= |s|
    ensures forall i :: k <= i < e ==> !cls.Ends(s[i])
    ensures e < |s| ==> cls.Ends(s[e])
    decreases |s| - k
  {
    if k == |s| || cls.Ends(s[k]) then k else TokenEnd(s, k + 1, cls)
  }

  lemma {:induction false} TokenEndIs(s: string, k: nat, e: nat, cls: Classes)
    requires k <= e <= |s|
    requires forall i :: k <= i < e ==> !cls.Ends(s[i])
    requires e < |s| ==> cls.Ends(s[e])
    ensures TokenEnd(s, k, cls) == e
    decreases e - k
  {
    if k < e {
      TokenEndIs(s, k + 1, e, cls);
    }
  }

  function Tokens(s: string, cls: Classes): seq<string>
    decreases |s|
  {
    if s == "" then []
    else if cls.single(s[0]) then [[s[0]]] + Tokens(s[1..], cls)
    else if cls.blank(s[0]) then Tokens(s[1..], cls)
    else
      var e := TokenEnd(s, 1, cls);
      [s[..e]] + Tokens(s[e..], cls)
  }

  predicate IsWord(w: string, cls: Classes) {
    w != "" && forall i :: 0 <= i < |w| ==> !cls.Ends(w[i])
  }

  lemma WordFirst(w: string, rest: string, cls: Classes)
    requires IsWord(w, cls)
    requires rest == "" || cls.Ends(rest[0])
    ensures Tokens(w + rest, cls) == [w] + Tokens(rest, cls)
  {
    var s := w + rest;
    TokenEndIs(s, 1, |w|, cls);
    assert s[..|w|] == w && s[|w|..] == rest;
  }

  /** Words with one blank between neighbours. */
  function Joined(ws: seq<string>): string {
    if ws == [] then ""
    else if |ws| == 1 then ws[0]
    else ws[0] + " " + Joined(ws[1..])
  }

  lemma {:induction false} TokensOfJoined(ws: seq<string>, cls: Classes)
    requires cls.blank(' ') && !cls.single(' ')
    requires forall i :: 0 <= i < |ws| ==> IsWord(ws[i], cls)
    ensures Tokens(Joined(ws), cls) == ws
  {
    if |ws| == 1 {
      WordFirst(ws[0], "", cls);
      assert ws[0] + "" == ws[0];
    } else if |ws| > 1 {
      TokensOfJoined(ws[1..], cls);
      var tail := " " + Joined(ws[1..]);
      assert tail[1..] == Joined(ws[1..]);
      WordFirst(ws[0], tail, cls);
      assert Joined(ws) == ws[0] + tail;
    }
  }

  lemma {:induction false} TokensAreWords(s: string, cls: Classes)
    requires forall c :: !cls.single(c)
    ensures forall i :: 0 <= i < |Tokens(s, cls)| ==> IsWord(Tokens(s, cls)[i], cls)
    decreases |s|
  {
    if s != "" {
      if cls.blank(s[0]) {
        TokensAreWords(s[1..], cls);
      } else {
        TokensAreWords(s[TokenEnd(s, 1, cls)..], cls);
      }
    }
  }
}
