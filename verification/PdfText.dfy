/**
 Text on its way into a PDF content stream: the escaping and cp1252 replacement of `PDFWriter._encode`,
 and the literal-string reader of section 7.3.4.2 of ISO 32000-1. A byte is a `char` below 256.
 */
module PdfText {
  import opened Results
  import opened PyStrings

  // ----- _escape -----

  function Escape(s: string): string {
    Replace(Replace(Replace(s, '\\', "\\\\"), '(', "\\("), ')', "\\)")
  }

  function EscapeChar(c: char): string {
    if c == '\\' || c == '(' || c == ')' then ['\\', c] else [c]
  }

  /** One pass, character by character: the independent description of `Escape`. */
  function EscapeOnce(s: string): string {
    if s == "" then "" else EscapeChar(s[0]) + EscapeOnce(s[1..])
  }

  lemma {:induction false} ReplaceAppend(a: string, b: string, c: char, r: string)
    ensures Replace(a + b, c, r) == Replace(a, c, r) + Replace(b, c, r)
  {
    if a == "" {
      assert a + b == b;
    } else {
      ReplaceAppend(a[1..], b, c, r);
      assert (a + b)[1..] == a[1..] + b;
      var head, x, y := if a[0] == c then r else [a[0]], Replace(a[1..], c, r), Replace(b, c, r);
      assert head + (x + y) == head + x + y;
    }
  }

  lemma ReplaceOne(d: char, c: char, r: string)
    ensures Replace([d], c, r) == if d == c then r else [d]
  {
    assert Replace([d], c, r) == (if d == c then r else [d]) + Replace([d][1..], c, r);
  }

  lemma ReplaceTwo(d: char, e: char, c: char, r: string)
    ensures Replace([d, e], c, r) == (if d == c then r else [d]) + (if e == c then r else [e])
  {
    assert [d, e] == [d] + [e];
    ReplaceAppend([d], [e], c, r);
    ReplaceOne(d, c, r);
    ReplaceOne(e, c, r);
  }

  lemma EscapeOneChar(c: char)
    ensures Escape([c]) == EscapeChar(c)
  {
    var a := Replace([c], '\\', "\\\\");
    ReplaceOne(c, '\\', "\\\\");
    if c == '\\' {
      ReplaceTwo('\\', '\\', '(', "\\(");
      ReplaceTwo('\\', '\\', ')', "\\)");
    } else {
      ReplaceOne(c, '(', "\\(");
      if c == '(' {
        ReplaceTwo('\\', '(', ')', "\\)");
      } else {
        ReplaceOne(c, ')', "\\)");
      }
    }
  }

  /** The three replacements do not interfere: no backslash added by a later one is escaped again. */
  lemma {:induction false} EscapeIsOnePass(s: string)
    ensures Escape(s) == EscapeOnce(s)
  {
    if s != "" {
      EscapeIsOnePass(s[1..]);
      EscapeOneChar(s[0]);
      assert s == [s[0]] + s[1..];
      ReplaceAppend([s[0]], s[1..], '\\', "\\\\");
      var a, b := Replace([s[0]], '\\', "\\\\"), Replace(s[1..], '\\', "\\\\");
      ReplaceAppend(a, b, '(', "\\(");
      ReplaceAppend(Replace(a, '(', "\\("), Replace(b, '(', "\\("), ')', "\\)");
    }
  }

  // ----- cp1252 -----

  /** The upper half of the C1 range of cp1252; bytes 81, 8D, 8F, 90 and 9D (hex) are unassigned. */
  const C1_TABLE: seq<char> :=
    ['\U{20AC}', '\U{0}', '\U{201A}', '\U{0192}', '\U{201E}', '\U{2026}', '\U{2020}', '\U{2021}',
     '\U{02C6}', '\U{2030}', '\U{0160}', '\U{2039}', '\U{0152}', '\U{0}', '\U{017D}', '\U{0}',
     '\U{0}', '\U{2018}', '\U{2019}', '\U{201C}', '\U{201D}', '\U{2022}', '\U{2013}', '\U{2014}',
     '\U{02DC}', '\U{2122}', '\U{0161}', '\U{203A}', '\U{0153}', '\U{0}', '\U{017E}', '\U{0178}']

  predicate IsByte(c: char) {
    c as int < 256
  }

  /** The position of `c` in the C1 table at or after `k`, or its length when there is none. */
  function C1Position(c: char, k: nat): (p: nat)
    requires k <= 32
    ensures k <= p <= 32
    ensures p < 32 ==> C1_TABLE[p] == c
    ensures forall j :: k <= j < p ==> C1_TABLE[j] != c
    decreases 32 - k
  {
    if k == 32 || C1_TABLE[k] == c then k else C1Position(c, k + 1)
  }

  predicate Encodable(c: char) {
    c as int < 0x80 || 0xA0 <= c as int < 0x100 || C1Position(c, 0) < 32
  }

  /** `encode("cp1252", errors="replace")` of one character. */
  function Cp1252(c: char): (b: char)
    ensures IsByte(b)
    ensures c as int < 0x80 ==> b == c
    ensures c as int >= 0x80 ==> b as int >= 0x80 || b == '?'
  {
    if c as int < 0x80 || 0xA0 <= c as int < 0x100 then c
    else if C1Position(c, 0) < 32 then (0x80 + C1Position(c, 0)) as char
    else '?'
  }

  /** `decode("cp1252")` of one byte that `Cp1252` produced. */
  function FromCp1252(b: char): char
    requires IsByte(b)
  {
    if 0x80 <= b as int < 0xA0 then C1_TABLE[b as int - 0x80] else b
  }

  function EncodeBytes(s: string): (r: string)
    ensures |r| == |s|
    ensures forall i :: 0 <= i < |s| ==> r[i] == Cp1252(s[i])
  {
    seq(|s|, i requires 0 <= i < |s| => Cp1252(s[i]))
  }

  function DecodeBytes(s: string): (r: string)
    requires forall i :: 0 <= i < |s| ==> IsByte(s[i])
    ensures |r| == |s|
    ensures forall i :: 0 <= i < |s| ==> r[i] == FromCp1252(s[i])
  {
    seq(|s|, i requires 0 <= i < |s| => FromCp1252(s[i]))
  }

  // ----- _encode -----

  const EM_DASH := '\U{2014}'
  const EN_DASH := '\U{2013}'

  /** `PDFWriter._encode`: dashes normalised, then escaped, then forced through cp1252. */
  function EncodeText(text: string): string {
    DecodeBytes(EncodeBytes(Escape(Replace(Replace(text, EM_DASH, "-"), EN_DASH, "-"))))
  }

  /** A character after a round trip through cp1252. */
  function Shown(c: char): char {
    if Encodable(c) then c else '?'
  }

  function DisplayChar(c: char): char {
    if c == EM_DASH || c == EN_DASH then '-' else Shown(c)
  }

  /** What a viewer can show of `text`: dashes plain, characters outside cp1252 as question marks. */
  function Displayable(text: string): (r: string)
    ensures |r| == |text|
    ensures forall i :: 0 <= i < |text| ==> r[i] == DisplayChar(text[i])
  {
    seq(|text|, i requires 0 <= i < |text| => DisplayChar(text[i]))
  }

  lemma Cp1252RoundTrip(c: char)
    ensures FromCp1252(Cp1252(c)) == Shown(c)
  {}

  lemma {:induction false} ReplaceByOneChar(s: string, c: char, d: char)
    ensures var r := Replace(s, c, [d]);
            |r| == |s| && forall i :: 0 <= i < |s| ==> r[i] == if s[i] == c then d else s[i]
  {
    if s != "" {
      ReplaceByOneChar(s[1..], c, d);
    }
  }

  lemma {:induction false} EscapeOnceMap(s: string, t: string, f: char -> char)
    requires |s| == |t| && forall i :: 0 <= i < |s| ==> t[i] == f(s[i])
    requires f('\\') == '\\' && f('(') == '(' && f(')') == ')'
    requires forall c :: f(c) == '\\' || f(c) == '(' || f(c) == ')' ==> f(c) == c
    ensures |EscapeOnce(t)| == |EscapeOnce(s)|
    ensures forall i :: 0 <= i < |EscapeOnce(s)| ==> EscapeOnce(t)[i] == f(EscapeOnce(s)[i])
  {
    if s != "" {
      EscapeOnceMap(s[1..], t[1..], f);
      assert EscapeChar(t[0]) == if |EscapeChar(s[0])| == 1 then [f(s[0])] else ['\\', f(s[0])];
    }
  }

  /** Normalising and replacing commute with escaping: `_encode` is exactly the escaped displayable text. */
  lemma EncodeTextIsEscapedDisplay(text: string)
    ensures EncodeText(text) == EscapeOnce(Displayable(text))
  {
    var plain := Replace(Replace(text, EM_DASH, "-"), EN_DASH, "-");
    ReplaceByOneChar(text, EM_DASH, '-');
    ReplaceByOneChar(Replace(text, EM_DASH, "-"), EN_DASH, '-');
    EscapeIsOnePass(plain);
    var escaped := EscapeOnce(plain);
    EscapeOnceMap(plain, Displayable(text), Shown);
    forall i | 0 <= i < |escaped| ensures EncodeText(text)[i] == Shown(escaped[i]) {
      Cp1252RoundTrip(escaped[i]);
    }
  }

  // ----- the reader of section 7.3.4.2 -----

  predicate IsOctal(c: char) {
    '0' <= c <= '7'
  }

  /** How many octal digits, at most three, follow the backslash at the head of `s`. */
  function OctalDigits(s: string): (n: nat)
    ensures n <= 3 && n < |s| + 1 && (s != "" ==> n < |s|)
    ensures forall i :: 1 <= i <= n ==> i < |s| && IsOctal(s[i])
  {
    if |s| < 2 || !IsOctal(s[1]) then 0
    else if |s| < 3 || !IsOctal(s[2]) then 1
    else if |s| < 4 || !IsOctal(s[3]) then 2
    else 3
  }

  function OctalValue(s: string): nat
    requires forall i :: 0 <= i < |s| ==> IsOctal(s[i])
  {
    if s == "" then 0 else assert IsOctal(s[|s| - 1]); 8 * OctalValue(s[..|s| - 1]) + (s[|s| - 1] as int - '0' as int)
  }

  /** The bytes an escape sequence at the head of `s` stands for, and how many bytes it takes up. */
  function ReadEscape(s: string): (r: (string, nat))
    requires |s| >= 2 && s[0] == '\\'
    ensures 1 <= r.1 <= |s|
  {
    var c := s[1];
    if c == '(' || c == ')' || c == '\\' then ([c], 2)
    else if c == 'n' then ("\n", 2)
    else if c == 'r' then ("\r", 2)
    else if c == 't' then ("\t", 2)
    else if c == 'b' then ("\U{8}", 2)
    else if c == 'f' then ("\U{C}", 2)
    else if c == '\n' then ("", 2)
    else if c == '\r' then ("", if |s| >= 3 && s[2] == '\n' then 3 else 2)
    else if IsOctal(c) then
      var n := OctalDigits(s);
      ([(OctalValue(s[1..n + 1]) % 256) as char], n + 1)
    else ("", 1)
  }

  /**
   Reads a literal string whose opening parenthesis has been consumed, with `depth` further
   parentheses open. Gives the string's bytes and what follows its closing parenthesis.
   */
  function ReadLiteral(s: string, depth: nat): Option<(string, string)>
    decreases |s|
  {
    if s == "" then None
    else if s[0] == ')' && depth == 0 then Some(("", s[1..]))
    else if s[0] == ')' then Prepend(")", ReadLiteral(s[1..], depth - 1))
    else if s[0] == '(' then Prepend("(", ReadLiteral(s[1..], depth + 1))
    else if s[0] == '\r' then
      Prepend("\n", ReadLiteral(if |s| >= 2 && s[1] == '\n' then s[2..] else s[1..], depth))
    else if s[0] == '\\' then
      if |s| == 1 then None else
      var (text, taken) := ReadEscape(s);
      Prepend(text, ReadLiteral(s[taken..], depth))
    else Prepend([s[0]], ReadLiteral(s[1..], depth))
  }

  function Prepend(a: string, r: Option<(string, string)>): Option<(string, string)> {
    match r
    case None => None
    case Some((text, rest)) => Some((a + text, rest))
  }

  /** An end-of-line marker inside a literal string reads as a line feed, whatever bytes it is made of. */
  function NormalizeEol(s: string): string {
    if s == "" then ""
    else if s[0] == '\r' then "\n" + NormalizeEol(if |s| >= 2 && s[1] == '\n' then s[2..] else s[1..])
    else [s[0]] + NormalizeEol(s[1..])
  }

  /** One escaped character in front of text that starts with no line feed reads as that character. */
  lemma ReadsOneChar(c: char, u: string)
    requires c == '\r' ==> u == "" || u[0] != '\n'
    ensures ReadLiteral(EscapeChar(c) + u, 0) == Prepend(if c == '\r' then "\n" else [c], ReadLiteral(u, 0))
  {
    var t := EscapeChar(c) + u;
    if |EscapeChar(c)| == 2 {
      assert t[2..] == u;
      assert ReadEscape(t) == ([c], 2);
    } else {
      assert t[1..] == u;
    }
  }

  lemma ReadsCrLf(u: string)
    ensures ReadLiteral("\r\n" + u, 0) == Prepend("\n", ReadLiteral(u, 0))
  {
    assert ("\r\n" + u)[2..] == u;
  }

  /** What a reader finds after an escaped text. */
  function Unread(s: string, rest: string): string {
    EscapeOnce(s) + ")" + rest
  }

  lemma UnreadHead(s: string, rest: string)
    requires s != ""
    ensures Unread(s, rest) == EscapeChar(s[0]) + Unread(s[1..], rest)
  {
    hide EscapeChar;
    Regrouped(EscapeChar(s[0]), EscapeOnce(s[1..]), ")", rest);
  }

  lemma Regrouped(a: string, b: string, c: string, d: string)
    ensures a + b + c + d == a + (b + c + d)
  {}

  lemma UnreadCrLf(s: string, rest: string)
    requires |s| >= 2 && s[0] == '\r' && s[1] == '\n'
    ensures Unread(s, rest) == "\r\n" + Unread(s[2..], rest)
  {
    hide Unread, EscapeOnce;
    UnreadHead(s, rest);
    UnreadHead(s[1..], rest);
    assert s[1..][1..] == s[2..];
    assert "\r" + ("\n" + Unread(s[2..], rest)) == "\r\n" + Unread(s[2..], rest);
  }

  lemma UnreadStart(s: string, rest: string)
    requires s == "" || s[0] != '\n'
    ensures Unread(s, rest) != "" && Unread(s, rest)[0] != '\n'
  {
    if s != "" {
      UnreadHead(s, rest);
    }
  }

  lemma NothingUnread(rest: string)
    ensures ReadLiteral(Unread("", rest), 0) == Some(("", rest))
  {
    assert Unread("", rest) == ")" + rest;
    assert (")" + rest)[1..] == rest;
  }

  lemma {:induction false} UnreadReadsBack(s: string, rest: string)
    ensures ReadLiteral(Unread(s, rest), 0) == Some((NormalizeEol(s), rest))
    decreases |s|
  {
    hide ReadLiteral, Unread, EscapeChar;
    if s == "" {
      NothingUnread(rest);
    } else if s[0] == '\r' && |s| >= 2 && s[1] == '\n' {
      UnreadReadsBack(s[2..], rest);
      UnreadCrLf(s, rest);
      ReadsCrLf(Unread(s[2..], rest));
    } else {
      UnreadReadsBack(s[1..], rest);
      UnreadHead(s, rest);
      if s[0] == '\r' {
        UnreadStart(s[1..], rest);
      }
      ReadsOneChar(s[0], Unread(s[1..], rest));
    }
  }

  lemma EscapedReadsBack(s: string, rest: string)
    ensures ReadLiteral(EscapeOnce(s) + ")" + rest, 0) == Some((NormalizeEol(s), rest))
  {
    hide ReadLiteral, EscapeOnce;
    UnreadReadsBack(s, rest);
  }

  lemma {:induction false} NormalizeEolIdentity(s: string)
    ensures '\r' !in NormalizeEol(s)
    ensures '\r' !in s ==> NormalizeEol(s) == s
    decreases |s|
  {
    if s != "" {
      NormalizeEolIdentity(s[1..]);
      if |s| >= 2 {
        NormalizeEolIdentity(s[2..]);
      }
    }
  }

  /**
   `(` + `_escape(s)` + `)` read as section 7.3.4.2 prescribes ends exactly at its closing parenthesis,
   whatever follows; the text comes back unchanged if and only if it holds no carriage return.
   */
  lemma LiteralRoundTrip(s: string, rest: string)
    ensures var r := ReadLiteral(Escape(s) + ")" + rest, 0);
            && r == Some((NormalizeEol(s), rest))
            && (r == Some((s, rest)) <==> '\r' !in s)
  {
    EscapeIsOnePass(s);
    EscapedReadsBack(s, rest);
    NormalizeEolIdentity(s);
  }

  /** A carriage return is where the round trip fails: it comes back as a line feed. */
  lemma CarriageReturnIsLost()
    ensures ReadLiteral(Escape("a\rb") + ")", 0) == Some(("a\nb", ""))
  {
    LiteralRoundTrip("a\rb", "");
    assert Escape("a\rb") + ")" + "" == Escape("a\rb") + ")";
    var s := "a\rb";
    assert s[1..] == "\rb" && "\rb"[1..] == "b" && "b"[1..] == "";
    assert NormalizeEol("b") == "b";
    assert NormalizeEol("\rb") == "\nb";
    assert NormalizeEol(s) == ['a'] + NormalizeEol(s[1..]) == "a\nb";
  }

  /** The bytes of the operand of a `Tj` operator read back as the cp1252 bytes of the displayable text. */
  lemma TextOperandReadsBack(text: string, rest: string)
    ensures ReadLiteral(EncodeBytes(EncodeText(text)) + ")" + rest, 0)
         == Some((NormalizeEol(EncodeBytes(Displayable(text))), rest))
  {
    var d := Displayable(text);
    EncodeTextIsEscapedDisplay(text);
    EscapeOnceMap(d, EncodeBytes(d), c => Cp1252(c));
    assert EncodeBytes(EscapeOnce(d)) == EscapeOnce(EncodeBytes(d));
    EscapedReadsBack(EncodeBytes(d), rest);
  }
}
