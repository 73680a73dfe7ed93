/** Line breaking: `PDFWriter._estimate_lines` with the greedy filling of `textwrap.wrap`. */
module PdfWrap {
  import opened Lexing
  import opened PyStrings

  datatype Font = Helvetica | HelveticaBold | HelveticaOblique

  const TEXT_CLASSES := Classes(c => IsSpace(c), c => false)

  function Words(text: string): seq<string> {
    Tokens(text, TEXT_CLASSES)
  }

  /** How many words go on a line that already holds the first `k`, `len` characters in all. */
  function LineWords(ws: seq<string>, width: nat, k: nat, len: nat): (e: nat)
    requires k <= |ws|
    ensures k <= e <= |ws|
    decreases |ws| - k
  {
    if k < |ws| && len + 1 + |ws[k]| <= width then LineWords(ws, width, k + 1, len + 1 + |ws[k]|) else k
  }

  function Wrap(ws: seq<string>, width: nat): (lines: seq<string>)
    ensures ws != [] ==> |lines| > 0
  {
    if ws == [] then [] else
    var k := LineWords(ws, width, 1, |ws[0]|);
    [Joined(ws[..k])] + Wrap(ws[k..], width)
  }

  /** `int(width / avg_char)`, at least 12. */
  function MaxChars(size: real, width: real, font: Font): (n: nat)
    requires size > 0.0
    ensures n >= 12
  {
    var chars := (width / (size * (if font == HelveticaBold then 0.56 else 0.53))).Floor;
    if chars > 12 then chars else 12
  }

  function EstimateLines(text: string, size: real, width: real, font: Font): (lines: seq<string>)
    requires size > 0.0
    ensures |lines| >= 1
  {
    var ws := Words(text);
    if ws == [] then [""] else Wrap(ws, MaxChars(size, width, font))
  }

  /** All the words of a block of lines, in reading order. */
  function WordsOfLines(lines: seq<string>): seq<string> {
    if lines == [] then [] else Words(lines[0]) + WordsOfLines(lines[1..])
  }

  lemma {:induction false} JoinedLength(ws: seq<string>, k: nat)
    requires 0 < k < |ws|
    ensures |Joined(ws[..k + 1])| == |Joined(ws[..k])| + 1 + |ws[k]|
  {
    assert ws[..k + 1][1..] == ws[1..][..k];
    assert ws[..k][1..] == ws[1..][..k - 1];
    if k > 1 {
      JoinedLength(ws[1..], k - 1);
    } else {
      assert ws[1..][..1] == [ws[1]];
    }
  }

  /** A line ends only where the text ends or where one more word would pass the width. */
  lemma {:induction false} LineIsFull(ws: seq<string>, width: nat, k: nat)
    requires 0 < k <= |ws|
    requires k == 1 || |Joined(ws[..k])| <= width
    ensures var e := LineWords(ws, width, k, |Joined(ws[..k])|);
            && (e == 1 || |Joined(ws[..e])| <= width)
            && (e == |ws| || |Joined(ws[..e + 1])| > width)
    decreases |ws| - k
  {
    if k < |ws| {
      JoinedLength(ws, k);
      if |Joined(ws[..k])| + 1 + |ws[k]| <= width {
        LineIsFull(ws, width, k + 1);
      }
    }
  }

  predicate FitsOrSingle(line: string, width: nat) {
    |line| <= width || |Words(line)| == 1
  }

  /** The first line holds the first words, and passes the width only when it is one word. */
  lemma FirstLine(ws: seq<string>, width: nat)
    requires ws != [] && forall i :: 0 <= i < |ws| ==> IsWord(ws[i], TEXT_CLASSES)
    ensures var k := LineWords(ws, width, 1, |ws[0]|);
            k >= 1 && Words(Joined(ws[..k])) == ws[..k] && FitsOrSingle(Joined(ws[..k]), width)
  {
    hide IsWord, Tokens;
    var k := LineWords(ws, width, 1, |ws[0]|);
    TokensOfJoined(ws[..k], TEXT_CLASSES);
    assert ws[..1] == [ws[0]];
    LineIsFull(ws, width, 1);
  }

  lemma {:induction false} WrapKeepsWords(ws: seq<string>, width: nat)
    requires forall i :: 0 <= i < |ws| ==> IsWord(ws[i], TEXT_CLASSES)
    ensures WordsOfLines(Wrap(ws, width)) == ws
    ensures forall i :: 0 <= i < |Wrap(ws, width)| ==> FitsOrSingle(Wrap(ws, width)[i], width)
  {
    hide FitsOrSingle, IsWord, Words, Joined, LineWords;
    if ws != [] {
      var k := LineWords(ws, width, 1, |ws[0]|);
      FirstLine(ws, width);
      WrapKeepsWords(ws[k..], width);
      var lines := Wrap(ws, width);
      assert lines[1..] == Wrap(ws[k..], width);
      assert ws == ws[..k] + ws[k..];
    }
  }

  /**
   Breaking a text into lines loses no word and changes no order; a line is longer than the
   character budget only when it is a single long word.
   */
  lemma EstimateLinesKeepsWords(text: string, size: real, width: real, font: Font)
    requires size > 0.0
    ensures var lines := EstimateLines(text, size, width, font);
            && WordsOfLines(lines) == Words(text)
            && forall i :: 0 <= i < |lines| ==> FitsOrSingle(lines[i], MaxChars(size, width, font))
  {
    TokensAreWords(text, TEXT_CLASSES);
    WrapKeepsWords(Words(text), MaxChars(size, width, font));
  }

  // ----- white space inside lines -----

  /** No white space but blanks. */
  predicate BlankFree(line: string) {
    forall i :: 0 <= i < |line| ==> line[i] == ' ' || !IsSpace(line[i])
  }

  lemma {:induction false} JoinedBlankFree(ws: seq<string>)
    requires forall i :: 0 <= i < |ws| ==> IsWord(ws[i], TEXT_CLASSES)
    ensures BlankFree(Joined(ws))
  {
    hide IsSpace;
    if |ws| > 1 {
      JoinedBlankFree(ws[1..]);
    }
  }

  lemma {:induction false} WrapBlankFree(ws: seq<string>, width: nat, i: nat)
    requires forall k :: 0 <= k < |ws| ==> IsWord(ws[k], TEXT_CLASSES)
    requires i < |Wrap(ws, width)|
    ensures BlankFree(Wrap(ws, width)[i])
    decreases |ws|
  {
    hide BlankFree, IsWord;
    var k := LineWords(ws, width, 1, |ws[0]|);
    if i == 0 {
      JoinedBlankFree(ws[..k]);
    } else {
      WrapBlankFree(ws[k..], width, i - 1);
    }
  }

  /** A line of a wrapped text holds no white space but the blanks between its words, so no carriage return. */
  lemma LinesAreBlankFree(text: string, size: real, width: real, font: Font, i: nat)
    requires size > 0.0
    requires i < |EstimateLines(text, size, width, font)|
    ensures BlankFree(EstimateLines(text, size, width, font)[i])
    ensures '\r' !in EstimateLines(text, size, width, font)[i]
  {
    TokensAreWords(text, TEXT_CLASSES);
    if Words(text) != [] {
      WrapBlankFree(Words(text), MaxChars(size, width, font), i);
    }
  }
}
