/**
 A reader of content streams: tokens, with literal strings among them, and the commands they make up, each an operator
 after its operands. On the streams `build` writes it recovers the commands of a page's operators in order, with the
 numbers rounded as they were printed.
 */
module PdfContent {
  import opened Results
  import opened Decimal
  import opened Lexing
  import opened PdfWrap
  import opened PdfLayout
  import opened PdfText
  import opened PdfBuild

  // ----- tokens -----

  datatype Token = Word(text: string) | Literal(bytes: string)

  const CONTENT_CLASSES := Classes((c: char) => c == ' ' || c == '\n', (c: char) => c == '(')

  function First(t: Token, r: Option<seq<Token>>): Option<seq<Token>> {
    match r case None => None case Some(ts) => Some([t] + ts)
  }

  function Before<T>(front: seq<T>, r: Option<seq<T>>): Option<seq<T>> {
    match r case None => None case Some(more) => Some(front + more)
  }

  /** Words separated by blanks, and literal strings as section 7.3.4.2 reads them. */
  function ReadTokens(s: string): Option<seq<Token>>
    decreases |s|
  {
    if s == "" then Some([])
    else if CONTENT_CLASSES.blank(s[0]) then ReadTokens(s[1..])
    else if s[0] == '(' then
      match ReadLiteral(s[1..], 0)
      case None => None
      case Some((bytes, rest)) => if |rest| < |s| then First(Literal(bytes), ReadTokens(rest)) else None
    else
      var e := TokenEnd(s, 1, CONTENT_CLASSES);
      First(Word(s[..e]), ReadTokens(s[e..]))
  }

  function Words(ws: seq<string>): (ts: seq<Token>)
    ensures |ts| == |ws| && forall i :: 0 <= i < |ws| ==> ts[i] == Word(ws[i])
  {
    seq(|ws|, i requires 0 <= i < |ws| => Word(ws[i]))
  }

  predicate IsContentWord(w: string) {
    IsWord(w, CONTENT_CLASSES)
  }

  lemma ReadsBlank(rest: string)
    ensures ReadTokens(" " + rest) == ReadTokens(rest)
    ensures ReadTokens("\n" + rest) == ReadTokens(rest)
  {
    assert (" " + rest)[1..] == rest && ("\n" + rest)[1..] == rest;
  }

  lemma ReadsWord(w: string, rest: string)
    requires IsContentWord(w) && (rest == "" || CONTENT_CLASSES.Ends(rest[0]))
    ensures ReadTokens(w + rest) == First(Word(w), ReadTokens(rest))
  {
    var s := w + rest;
    TokenEndIs(s, 1, |w|, CONTENT_CLASSES);
    assert s[..|w|] == w && s[|w|..] == rest;
  }

  /** Words with blanks between them, in front of a line end or a literal string. */
  lemma {:induction false} ReadsWords(ws: seq<string>, rest: string)
    requires ws != [] && forall i :: 0 <= i < |ws| ==> IsContentWord(ws[i])
    requires rest == "" || CONTENT_CLASSES.Ends(rest[0])
    ensures ReadTokens(Joined(ws) + rest) == Before(Words(ws), ReadTokens(rest))
  {
    hide ReadTokens, IsContentWord;
    if |ws| == 1 {
      ReadsWord(ws[0], rest);
      assert Words(ws) == [Word(ws[0])];
    } else {
      var tail := Joined(ws[1..]) + rest;
      ReadsWords(ws[1..], rest);
      ReadsWord(ws[0], " " + tail);
      ReadsBlank(tail);
      assert Joined(ws) + rest == ws[0] + (" " + tail);
      assert Words(ws) == [Word(ws[0])] + Words(ws[1..]);
      FirstBefore(Word(ws[0]), Words(ws[1..]), ReadTokens(rest));
    }
  }

  lemma FirstBefore(t: Token, ts: seq<Token>, r: Option<seq<Token>>)
    ensures First(t, Before(ts, r)) == Before([t] + ts, r)
  {
    if r.Some? {
      assert [t] + (ts + r.value) == [t] + ts + r.value;
    }
  }

  lemma BeforeBefore<T>(a: seq<T>, b: seq<T>, r: Option<seq<T>>)
    ensures Before(a, Before(b, r)) == Before(a + b, r)
  {
    if r.Some? {
      assert a + (b + r.value) == a + b + r.value;
    }
  }

  /** A literal string whose reading is known, in front of something shorter than itself. */
  lemma ReadsLiteral(operand: string, bytes: string, rest: string)
    requires ReadLiteral(operand + ")" + rest, 0) == Some((bytes, rest))
    ensures ReadTokens("(" + operand + ")" + rest) == First(Literal(bytes), ReadTokens(rest))
  {
    hide ReadLiteral;
    var s := "(" + operand + ")" + rest;
    assert s[1..] == operand + ")" + rest;
  }

  // ----- numerals -----

  /** The position of the point in a numeral, or its length. */
  function Point(s: string): (p: nat)
    ensures p <= |s| && (forall i :: 0 <= i < p ==> s[i] != '.') && (p < |s| ==> s[p] == '.')
  {
    if s == "" || s[0] == '.' then 0 else 1 + Point(s[1..])
  }

  function FromParts(whole: string, part: string): Option<real> {
    if whole == "" || !AllDigits(whole) || !AllDigits(part) then None
    else Some(Value(whole) as real + Value(part) as real / Pow10(|part|) as real)
  }

  function ReadUnsigned(s: string): Option<real> {
    var p := Point(s);
    FromParts(s[..p], if p < |s| then s[p + 1..] else "")
  }

  function ReadNumber(s: string): Option<real> {
    if s != "" && s[0] == '-' then
      match ReadUnsigned(s[1..]) case None => None case Some(x) => Some(-x)
    else ReadUnsigned(s)
  }

  /** What a number is after it has been printed with two decimals. */
  function Rounded2(x: real): real {
    var n := RoundHalfEven(Abs(x) * 100.0) as real / 100.0;
    if x < 0.0 then -n else n
  }

  /** What a number is after it has been printed with three decimals. */
  function Rounded3(x: real): real {
    var n := RoundHalfEven(Abs(x) * 1000.0) as real / 1000.0;
    if x < 0.0 then -n else n
  }

  /** Printing keeps a number up to half a unit of the last place. */
  lemma RoundedIsNear(x: real)
    ensures -0.005 <= Rounded2(x) - x <= 0.005
    ensures -0.0005 <= Rounded3(x) - x <= 0.0005
  {
    hide RoundHalfEven;
  }

  lemma {:induction false} PointAfter(whole: string, part: string)
    requires AllDigits(whole)
    ensures Point(whole + "." + part) == |whole|
  {
    var s := whole + "." + part;
    if whole != "" {
      PointAfter(whole[1..], part);
      assert s[1..] == whole[1..] + "." + part;
      assert IsDigit(whole[0]);
    }
  }

  lemma ReadsPointed(whole: string, part: string)
    requires AllDigits(whole)
    ensures ReadUnsigned(whole + "." + part) == FromParts(whole, part)
  {
    PointAfter(whole, part);
    hide Point, AllDigits, FromParts;
    var s := whole + "." + part;
    assert s[..|whole|] == whole && s[|whole| + 1..] == part;
  }

  /** A numeral of a whole part and `k` decimals, where `p` is the `k`-th power of ten. */
  lemma ReadsDecimals(whole: nat, part: nat, k: nat, p: nat)
    requires k > 0 && p == Pow10(k) && part < p
    ensures ReadUnsigned(Dec(whole) + "." + Padded(part, k)) == Some(whole as real + part as real / p as real)
  {
    hide Dec, Padded, Value, ReadUnsigned, AllDigits, Pow10;
    ReadsPointed(Dec(whole), Padded(part, k));
    ValueOfDec(whole);
    ValueOfPadded(part, k);
    PaddedLength(part, k);
  }

  lemma Parts(n: nat, p: nat)
    requires p > 0
    ensures (n / p) as real + (n % p) as real / p as real == n as real / p as real
  {
    var q, r := n / p, n % p;
    assert n == q * p + r;
    assert n as real == q as real * p as real + r as real;
    Quotient(q as real, r as real, p as real);
  }

  lemma Quotient(q: real, r: real, p: real)
    requires p > 0.0
    ensures q + r / p == (q * p + r) / p
  {
    assert q == (q * p) / p;
  }

  /** `Sign(x)` in front of a numeral. */
  lemma ReadsSigned(negative: bool, digits: string, x: real)
    requires digits != "" && IsDigit(digits[0]) && ReadUnsigned(digits) == Some(x)
    ensures ReadNumber((if negative then "-" else "") + digits) == Some(if negative then -x else x)
  {
    hide ReadUnsigned;
    assert "" + digits == digits;
    assert ("-" + digits)[1..] == digits;
  }

  lemma ReadsFixed2(x: real)
    ensures ReadNumber(Fixed2(x)) == Some(Rounded2(x))
  {
    hide Dec, Padded, ReadUnsigned, ReadNumber, RoundHalfEven;
    var n: nat := RoundHalfEven(Abs(x) * 100.0);
    assert Pow10(2) == 100;
    ReadsDecimals(n / 100, n % 100, 2, 100);
    Parts(n, 100);
    var digits := Dec(n / 100) + "." + Padded(n % 100, 2);
    assert Fixed2(x) == Sign(x) + digits;
    ReadsSigned(x < 0.0, digits, n as real / 100.0);
  }

  lemma ReadsFixed3(x: real)
    ensures ReadNumber(Fixed3(x)) == Some(Rounded3(x))
  {
    hide Dec, Padded, ReadUnsigned, ReadNumber, RoundHalfEven;
    var n: nat := RoundHalfEven(Abs(x) * 1000.0);
    assert Pow10(3) == 1000 by { assert Pow10(2) == 100; }
    ReadsDecimals(n / 1000, n % 1000, 3, 1000);
    Parts(n, 1000);
    var digits := Dec(n / 1000) + "." + Padded(n % 1000, 3);
    assert Fixed3(x) == Sign(x) + digits;
    ReadsSigned(x < 0.0, digits, n as real / 1000.0);
  }

  // ----- commands -----

  datatype Operand = Number(x: real) | Name(name: string) | Str(bytes: string)

  /** An operator with the operands in front of it, as section 7.8.2 of ISO 32000-1 describes content streams. */
  datatype Command = Command(operator: string, operands: seq<Operand>)

  /** The operand a token stands for; any other word is an operator. */
  function OperandOf(t: Token): (x: Option<Operand>)
    ensures x.None? ==> t.Word?
  {
    match t
    case Literal(bytes) => Some(Str(bytes))
    case Word(w) =>
      if w != "" && w[0] == '/' then Some(Name(w[1..])) else
      match ReadNumber(w) case None => None case Some(x) => Some(Number(x))
  }

  /** The commands of a content stream, where `pending` are the operands read since the last operator. */
  function Commands(ts: seq<Token>, pending: seq<Operand>): Option<seq<Command>>
    decreases |ts|
  {
    if ts == [] then if pending == [] then Some([]) else None else
    match OperandOf(ts[0])
    case Some(x) => Commands(ts[1..], pending + [x])
    case None => Before([Command(ts[0].text, pending)], Commands(ts[1..], []))
  }

  /** The commands a content stream holds. */
  function ReadContent(stream: string): Option<seq<Command>> {
    match ReadTokens(stream) case None => None case Some(ts) => Commands(ts, [])
  }

  lemma {:induction false} CommandsAppend(a: seq<Token>, b: seq<Token>, pending: seq<Operand>)
    requires Commands(a, pending).Some?
    ensures Commands(a + b, pending) == Before(Commands(a, pending).value, Commands(b, []))
    decreases |a|
  {
    hide OperandOf;
    if a == [] {
      assert [] + b == b;
      NothingBefore(Commands(b, []));
    } else {
      assert (a + b)[1..] == a[1..] + b;
      match OperandOf(a[0])
      case Some(x) => CommandsAppend(a[1..], b, pending + [x]);
      case None =>
        CommandsAppend(a[1..], b, []);
        BeforeBefore([Command(a[0].text, pending)], Commands(a[1..], []).value, Commands(b, []));
    }
  }

  lemma Then(a: seq<Token>, b: seq<Token>, front: seq<Command>, back: seq<Command>)
    requires Commands(a, []) == Some(front) && Commands(b, []) == Some(back)
    ensures Commands(a + b, []) == Some(front + back)
  {
    CommandsAppend(a, b, []);
  }

  lemma ThenBoth(a: seq<Token>, b: seq<Token>, c: seq<Token>, x: seq<Command>, y: seq<Command>, z: seq<Command>)
    requires Commands(a, []) == Some(x) && Commands(b, []) == Some(y) && Commands(c, []) == Some(z)
    ensures Commands(a + b + c, []) == Some(x + y + z)
  {
    hide Commands;
    Then(a, b, x, y);
    Then(a + b, c, x + y, z);
  }

  /** Tokens that end in an operator make up commands. */
  lemma {:induction false} EndsInOperator(ts: seq<Token>, pending: seq<Operand>)
    requires ts != [] && OperandOf(ts[|ts| - 1]).None?
    ensures Commands(ts, pending).Some?
    decreases |ts|
  {
    hide OperandOf;
    if |ts| == 1 {
      assert ts[1..] == [] && Commands(ts[1..], []) == Some([]);
    } else {
      match OperandOf(ts[0])
      case Some(x) => EndsInOperator(ts[1..], pending + [x]);
      case None => EndsInOperator(ts[1..], []);
    }
  }

  /** Operands and then an operator are one command. */
  lemma {:induction false} OneCommand(ts: seq<Token>, xs: seq<Operand>, pending: seq<Operand>)
    requires |ts| == |xs| + 1 && OperandOf(ts[|xs|]).None?
    requires forall i :: 0 <= i < |xs| ==> OperandOf(ts[i]) == Some(xs[i])
    ensures Commands(ts, pending) == Some([Command(ts[|xs|].text, pending + xs)])
    decreases |ts|
  {
    hide OperandOf;
    if xs == [] {
      assert ts[1..] == [] && Commands(ts[1..], []) == Some([]);
      assert pending + [] == pending;
      assert [Command(ts[0].text, pending)] + [] == [Command(ts[0].text, pending)];
    } else {
      OneCommand(ts[1..], xs[1..], pending + [xs[0]]);
      assert pending + [xs[0]] + xs[1..] == pending + xs;
    }
  }

  lemma Spells(ts: seq<Token>, operator: string, xs: seq<Operand>)
    requires |ts| == |xs| + 1 && StartsWithLetter(operator) && ts[|xs|] == Word(operator)
    requires forall i :: 0 <= i < |xs| ==> OperandOf(ts[i]) == Some(xs[i])
    ensures Commands(ts, []) == Some([Command(operator, xs)])
  {
    LettersAreOperators(operator);
    hide OperandOf, Commands;
    OneCommand(ts, xs, []);
    assert [] + xs == xs;
  }

  predicate IsLetter(c: char) {
    'a' <= c <= 'z' || 'A' <= c <= 'Z'
  }

  predicate StartsWithLetter(w: string) {
    w != "" && IsLetter(w[0])
  }

  lemma LettersAreOperators(w: string)
    requires StartsWithLetter(w)
    ensures OperandOf(Word(w)).None?
  {
    var whole := w[..Point(w)];
    assert whole != "" ==> whole[0] == w[0] && !IsDigit(w[0]);
  }

  // ----- what an operator shows -----

  function ColorShown(c: Color): seq<Operand> {
    [Number(Rounded3(c.r)), Number(Rounded3(c.g)), Number(Rounded3(c.b))]
  }

  function PointShown(x: real, y: real): seq<Operand> {
    [Number(Rounded2(x)), Number(Rounded2(y))]
  }

  function BoxShown(x: real, y: real, w: real, h: real): seq<Operand> {
    [Number(Rounded2(x)), Number(Rounded2(y)), Number(Rounded2(w)), Number(Rounded2(h))]
  }

  function TextShown(x: real, y: real, font: string, size: real, bytes: string): seq<Command> {
    [Command("BT", []), Command("Tf", [Name(font), Number(size)]), Command("Td", [Number(x), Number(y)]),
     Command("Tj", [Str(bytes)]), Command("ET", [])]
  }

  /** A line written out as it stands: ASCII without strings and names, ending in the letter of an operator. */
  predicate ReadableLine(line: string) {
    && line != "" && IsLetter(line[|line| - 1])
    && forall i :: 0 <= i < |line| ==> line[i] != '(' && line[i] != '/' && line[i] as int < 0x80
  }

  predicate Readable(op: Op) {
    op.Raw? ==> ReadableLine(op.line)
  }

  predicate AllReadable(ops: seq<Op>) {
    forall i :: 0 <= i < |ops| ==> Readable(ops[i])
  }

  /** What an operator reads as once it is printed: numbers rounded, text displayable and in cp1252. */
  function Shows(op: Op): seq<Command>
    requires Readable(op)
  {
    match op
    case Fill(c) => [Command("rg", ColorShown(c))]
    case Stroke(c) => [Command("RG", ColorShown(c))]
    case Text(x, y, text, font, size) =>
      TextShown(Rounded2(x), Rounded2(y), FontName(font), Rounded2(size), NormalizeEol(EncodeBytes(Displayable(text))))
    case Rule(x1, y1, x2, y2) => [Command("m", PointShown(x1, y1)), Command("l", PointShown(x2, y2)), Command("S", [])]
    case Box(x, y, w, h) => [Command("re", BoxShown(x, y, w, h)), Command("B", [])]
    case Raw(line) =>
      LineMakesCommands(line);
      ReadContent(line).value
  }

  /** The words of a line without strings: they are made of its characters, and the last ends where the line ends. */
  lemma {:induction false} WordsOfLine(line: string)
    requires forall i :: 0 <= i < |line| ==> line[i] != '('
    ensures ReadTokens(line).Some?
    ensures var ts := ReadTokens(line).value;
            && (forall i :: 0 <= i < |ts| ==>
                  ts[i].Word? && ts[i].text != "" && forall c :: c in ts[i].text ==> c in line)
            && (line != "" && !CONTENT_CLASSES.blank(line[|line| - 1]) ==>
                  ts != [] && var w := ts[|ts| - 1].text; w[|w| - 1] == line[|line| - 1])
    decreases |line|
  {
    if line != "" {
      if CONTENT_CLASSES.blank(line[0]) {
        WordsOfLine(line[1..]);
      } else {
        WordsOfLine(line[TokenEnd(line, 1, CONTENT_CLASSES)..]);
      }
    }
  }

  lemma NoNumeral(s: string)
    requires s != "" && IsLetter(s[|s| - 1])
    ensures ReadUnsigned(s).None?
  {
    hide Point;
    var p := Point(s);
    var last := if p < |s| then s[p + 1..] else s[..p];
    assert last[|last| - 1] == s[|s| - 1] && !IsDigit(s[|s| - 1]);
  }

  /** A word that ends in a letter is an operator, unless it is a name. */
  lemma EndsInLetter(w: string)
    requires w != "" && w[0] != '/' && IsLetter(w[|w| - 1])
    ensures OperandOf(Word(w)).None?
  {
    hide ReadUnsigned;
    NoNumeral(w);
    if w[0] == '-' {
      NoNumeral(w[1..]);
    }
  }

  lemma LineMakesCommands(line: string)
    requires ReadableLine(line)
    ensures ReadTokens(line).Some? && Commands(ReadTokens(line).value, []).Some?
  {
    WordsOfLine(line);
    hide ReadTokens, OperandOf;
    var ts := ReadTokens(line).value;
    assert ts[|ts| - 1].text[0] in line;
    EndsInLetter(ts[|ts| - 1].text);
    EndsInOperator(ts, []);
  }

  /** A line without strings reads by itself as it does in front of more lines. */
  lemma {:induction false} ReadsLineAlone(line: string, rest: string)
    requires forall i :: 0 <= i < |line| ==> line[i] != '('
    requires rest == "" || CONTENT_CLASSES.Ends(rest[0])
    ensures ReadTokens(line).Some? && ReadTokens(line + rest) == Before(ReadTokens(line).value, ReadTokens(rest))
    decreases |line|
  {
    WordsOfLine(line);
    if line == "" {
      assert "" + rest == rest;
      NothingBefore(ReadTokens(rest));
    } else if CONTENT_CLASSES.blank(line[0]) {
      ReadsLineAlone(line[1..], rest);
      assert (line + rest)[1..] == line[1..] + rest;
    } else {
      var e := TokenEnd(line, 1, CONTENT_CLASSES);
      TokenEndIs(line + rest, 1, e, CONTENT_CLASSES);
      assert (line + rest)[..e] == line[..e] && (line + rest)[e..] == line[e..] + rest;
      ReadsLineAlone(line[e..], rest);
      FirstBefore(Word(line[..e]), ReadTokens(line[e..]).value, ReadTokens(rest));
    }
  }

  // ----- the tokens of an operator -----

  function ColorWords(c: Color): seq<string> {
    [Fixed3(c.r), Fixed3(c.g), Fixed3(c.b)]
  }

  function OpTokens(op: Op): seq<Token> {
    match op
    case Fill(c) => Words(ColorWords(c) + ["rg"])
    case Stroke(c) => Words(ColorWords(c) + ["RG"])
    case Text(x, y, text, font, size) =>
      Words(["BT", "/" + FontName(font), Fixed2(size), "Tf", Fixed2(x), Fixed2(y), "Td"])
      + [Literal(NormalizeEol(EncodeBytes(Displayable(text))))] + Words(["Tj", "ET"])
    case Rule(x1, y1, x2, y2) => Words([Fixed2(x1), Fixed2(y1), "m", Fixed2(x2), Fixed2(y2), "l", "S"])
    case Box(x, y, w, h) => Words([Fixed2(x), Fixed2(y), Fixed2(w), Fixed2(h), "re", "B"])
    case Raw(line) => match ReadTokens(line) case None => [] case Some(ts) => ts
  }

  /** A numeral is a word whose characters are digits, a point and perhaps a sign. */
  lemma NumeralsAreWords(x: real)
    ensures IsContentWord(Fixed2(x)) && IsContentWord(Fixed3(x))
    ensures Fixed2(x)[0] != '/' && Fixed3(x)[0] != '/'
    ensures forall i :: 0 <= i < |Fixed2(x)| ==> Fixed2(x)[i] as int < 0x80
    ensures forall i :: 0 <= i < |Fixed3(x)| ==> Fixed3(x)[i] as int < 0x80
  {
    hide Dec, Padded, RoundHalfEven;
    var n: nat, m: nat := RoundHalfEven(Abs(x) * 100.0), RoundHalfEven(Abs(x) * 1000.0);
    assert Pow10(2) == 100 && Pow10(3) == 1000;
    PaddedLength(n % 100, 2);
    PaddedLength(m % 1000, 3);
    NumeralParts(Sign(x), Dec(n / 100), Padded(n % 100, 2));
    NumeralParts(Sign(x), Dec(m / 1000), Padded(m % 1000, 3));
  }

  lemma NumeralParts(sign: string, whole: string, part: string)
    requires sign == "" || sign == "-"
    requires whole != "" && AllDigits(whole) && part != "" && AllDigits(part)
    ensures var s := sign + whole + "." + part;
            && IsContentWord(s) && s[0] != '/'
            && forall i :: 0 <= i < |s| ==> s[i] as int < 0x80
  {
    var s := sign + whole + "." + part;
    forall i | 0 <= i < |s| ensures s[i] == '-' || s[i] == '.' || IsDigit(s[i]) {
      var a, b := |sign|, |sign| + |whole|;
      if i >= b + 1 {
        assert s[i] == part[i - b - 1];
      } else if a <= i < b {
        assert s[i] == whole[i - a];
      }
    }
  }

  // ----- reading a page's lines -----

  predicate PlainWord(w: string) {
    IsContentWord(w) && forall i :: 0 <= i < |w| ==> w[i] as int < 0x80
  }

  lemma {:induction false} JoinedIsAscii(ws: seq<string>)
    requires forall i :: 0 <= i < |ws| ==> PlainWord(ws[i])
    ensures forall i :: 0 <= i < |Joined(ws)| ==> Joined(ws)[i] as int < 0x80
  {
    if |ws| > 1 {
      JoinedIsAscii(ws[1..]);
    }
  }

  /** Printed words read as they stand, in front of a blank, a line end, a literal string or nothing. */
  lemma ReadsPrinted(ws: seq<string>, rest: string)
    requires ws != [] && forall i :: 0 <= i < |ws| ==> PlainWord(ws[i])
    requires rest == "" || CONTENT_CLASSES.Ends(rest[0])
    ensures ReadTokens(EncodeBytes(Joined(ws)) + rest) == Before(Words(ws), ReadTokens(rest))
  {
    JoinedIsAscii(ws);
    hide ReadTokens, EncodeBytes, IsContentWord;
    EncodeAscii(Joined(ws));
    ReadsWords(ws, rest);
  }

  function TextLine(ws: seq<string>, operand: string): string {
    Joined(ws) + " (" + operand + ") " + Joined(["Tj", "ET"])
  }

  /** A text operator: words, an operand that reads as `bytes` whatever follows, and the last two words. */
  lemma ReadsTextLine(ws: seq<string>, operand: string, bytes: string, rest: string)
    requires ws != [] && forall i :: 0 <= i < |ws| ==> PlainWord(ws[i])
    requires rest == "" || CONTENT_CLASSES.Ends(rest[0])
    requires var after := " " + Joined(["Tj", "ET"]) + rest;
             ReadLiteral(EncodeBytes(operand) + ")" + after, 0) == Some((bytes, after))
    ensures ReadTokens(EncodeBytes(TextLine(ws, operand)) + rest)
         == Before(Words(ws) + [Literal(bytes)] + Words(["Tj", "ET"]), ReadTokens(rest))
  {
    LastWords();
    hide ReadTokens, ReadLiteral, EncodeBytes, PlainWord, Joined, Words;
    var last := Joined(["Tj", "ET"]);
    EncodedTextLine(ws, operand);
    var after := " " + last + rest;
    var literal := "(" + EncodeBytes(operand) + ")" + after;
    assert EncodeBytes(TextLine(ws, operand)) + rest == EncodeBytes(Joined(ws)) + (" " + literal);
    ReadsPrinted(ws, " " + literal);
    ReadsBlank(literal);
    ReadsLiteral(EncodeBytes(operand), bytes, after);
    assert after == " " + (last + rest);
    ReadsBlank(last + rest);
    ReadsPrinted(["Tj", "ET"], rest);
    FirstBefore(Literal(bytes), Words(["Tj", "ET"]), ReadTokens(rest));
    BeforeBefore(Words(ws), [Literal(bytes)] + Words(["Tj", "ET"]), ReadTokens(rest));
    assert Words(ws) + ([Literal(bytes)] + Words(["Tj", "ET"])) == Words(ws) + [Literal(bytes)] + Words(["Tj", "ET"]);
  }

  lemma LastWords()
    ensures forall i :: 0 <= i < 2 ==> PlainWord(["Tj", "ET"][i])
    ensures EncodeBytes(Joined(["Tj", "ET"])) == Joined(["Tj", "ET"])
  {
    assert PlainWord("Tj") && PlainWord("ET");
    JoinedIsAscii(["Tj", "ET"]);
    EncodeAscii(Joined(["Tj", "ET"]));
  }

  lemma EncodedTextLine(ws: seq<string>, operand: string)
    ensures EncodeBytes(TextLine(ws, operand))
         == EncodeBytes(Joined(ws)) + " (" + EncodeBytes(operand) + ") " + Joined(["Tj", "ET"])
  {
    LastWords();
    hide EncodeBytes, Joined, PlainWord;
    var last := Joined(["Tj", "ET"]);
    EncodeAppend(Joined(ws) + " (" + operand + ") ", last);
    EncodeAppend(Joined(ws) + " (" + operand, ") ");
    EncodeAppend(Joined(ws) + " (", operand);
    EncodeAppend(Joined(ws), " (");
    EncodeAscii(" (");
    EncodeAscii(") ");
  }

  lemma JoinedSix(a: string, b: string, c: string, d: string, e: string, f: string)
    ensures Joined([a, b, c, d]) == a + " " + b + " " + c + " " + d
    ensures Joined([a, b, c, d, e, f]) == a + " " + b + " " + c + " " + d + " " + e + " " + f
  {
    assert Joined([d]) == d;
    assert Joined([c, d]) == c + " " + d by { assert [c, d][1..] == [d]; }
    assert Joined([b, c, d]) == b + " " + (c + " " + d) by { assert [b, c, d][1..] == [c, d]; }
    assert [a, b, c, d][1..] == [b, c, d];
    assert Joined([e, f]) == e + " " + f by { assert [e, f][1..] == [f] && Joined([f]) == f; }
    assert Joined([d, e, f]) == d + " " + (e + " " + f) by { assert [d, e, f][1..] == [e, f]; }
    assert Joined([c, d, e, f]) == c + " " + Joined([d, e, f]) by { assert [c, d, e, f][1..] == [d, e, f]; }
    assert Joined([b, c, d, e, f]) == b + " " + Joined([c, d, e, f]) by { assert [b, c, d, e, f][1..] == [c, d, e, f]; }
    assert [a, b, c, d, e, f][1..] == [b, c, d, e, f];
  }

  lemma JoinedSeven(a: string, b: string, c: string, d: string, e: string, f: string, g: string)
    ensures Joined([a, b, c, d, e, f, g]) == a + " " + b + " " + c + " " + d + " " + e + " " + f + " " + g
  {
    JoinedSix(b, c, d, e, f, g);
    assert [a, b, c, d, e, f, g][1..] == [b, c, d, e, f, g];
    assert Joined([a, b, c, d, e, f, g]) == a + " " + Joined([b, c, d, e, f, g]);
  }

  /** The words in front of the operand of a text operator. */
  function TextWords(x: real, y: real, font: Font, size: real): seq<string> {
    ["BT", "/" + FontName(font), Fixed2(size), "Tf", Fixed2(x), Fixed2(y), "Td"]
  }

  lemma RenderedColor(c: Color, word: string) returns (ws: seq<string>)
    requires PlainWord(word)
    ensures ws == ColorWords(c) + [word] && ws != [] && ColorText(c) + " " + word == Joined(ws)
    ensures forall i :: 0 <= i < |ws| ==> PlainWord(ws[i])
  {
    hide Fixed3, Joined, PlainWord;
    ColorIsPlain(c);
    JoinedSix(Fixed3(c.r), Fixed3(c.g), Fixed3(c.b), word, "", "");
    ws := [Fixed3(c.r), Fixed3(c.g), Fixed3(c.b), word];
    assert ws == ColorWords(c) + [word];
  }

  lemma RenderedRule(x1: real, y1: real, x2: real, y2: real) returns (ws: seq<string>)
    ensures ws == [Fixed2(x1), Fixed2(y1), "m", Fixed2(x2), Fixed2(y2), "l", "S"]
    ensures PointText(x1, y1) + " m " + PointText(x2, y2) + " l S" == Joined(ws)
    ensures forall i :: 0 <= i < |ws| ==> PlainWord(ws[i])
  {
    hide Fixed2, Joined, PlainWord;
    Keywords();
    NumbersArePlain(x1, y1, x2, y2);
    JoinedSeven(Fixed2(x1), Fixed2(y1), "m", Fixed2(x2), Fixed2(y2), "l", "S");
    ws := [Fixed2(x1), Fixed2(y1), "m", Fixed2(x2), Fixed2(y2), "l", "S"];
    RuleText(Fixed2(x1), Fixed2(y1), Fixed2(x2), Fixed2(y2));
  }

  lemma RuleText(a: string, b: string, c: string, d: string)
    ensures (a + " " + b) + " m " + (c + " " + d) + " l S"
         == a + " " + b + " " + "m" + " " + c + " " + d + " " + "l" + " " + "S"
  {}

  lemma RenderedBox(x: real, y: real, w: real, h: real) returns (ws: seq<string>)
    ensures ws == [Fixed2(x), Fixed2(y), Fixed2(w), Fixed2(h), "re", "B"]
    ensures PointText(x, y) + " " + PointText(w, h) + " re B" == Joined(ws)
    ensures forall i :: 0 <= i < |ws| ==> PlainWord(ws[i])
  {
    hide Fixed2, Joined, PlainWord;
    Keywords();
    NumbersArePlain(x, y, w, h);
    JoinedSix(Fixed2(x), Fixed2(y), Fixed2(w), Fixed2(h), "re", "B");
    ws := [Fixed2(x), Fixed2(y), Fixed2(w), Fixed2(h), "re", "B"];
    BoxText(Fixed2(x), Fixed2(y), Fixed2(w), Fixed2(h));
  }

  lemma BoxText(a: string, b: string, c: string, d: string)
    ensures (a + " " + b) + " " + (c + " " + d) + " re B" == a + " " + b + " " + c + " " + d + " " + "re" + " " + "B"
  {}

  /** An operator other than a text is printed as its words with blanks between them. */
  lemma RenderedWords(op: Op) returns (ws: seq<string>)
    requires !op.Raw? && !op.Text?
    ensures ws != [] && Render(op) == Joined(ws) && OpTokens(op) == Words(ws)
    ensures forall i :: 0 <= i < |ws| ==> PlainWord(ws[i])
  {
    Keywords();
    hide Fixed2, Fixed3, Joined, PlainWord, ColorText, PointText, Words, ColorWords;
    match op
    case Fill(c) => ws := RenderedColor(c, "rg");
    case Stroke(c) => ws := RenderedColor(c, "RG");
    case Rule(x1, y1, x2, y2) => ws := RenderedRule(x1, y1, x2, y2);
    case Box(x, y, w, h) => ws := RenderedBox(x, y, w, h);
  }

  lemma Keywords()
    ensures PlainWord("rg") && PlainWord("RG") && PlainWord("m") && PlainWord("l") && PlainWord("S") && PlainWord("re")
    ensures PlainWord("B") && PlainWord("BT") && PlainWord("Tf") && PlainWord("Td")
  {}

  lemma ColorIsPlain(c: Color)
    ensures PlainWord(Fixed3(c.r)) && PlainWord(Fixed3(c.g)) && PlainWord(Fixed3(c.b))
  {
    hide Fixed3, IsContentWord;
    NumeralsAreWords(c.r);
    NumeralsAreWords(c.g);
    NumeralsAreWords(c.b);
  }

  lemma NumbersArePlain(a: real, b: real, c: real, d: real)
    ensures PlainWord(Fixed2(a)) && PlainWord(Fixed2(b)) && PlainWord(Fixed2(c)) && PlainWord(Fixed2(d))
  {
    hide Fixed2, IsContentWord;
    NumeralsAreWords(a);
    NumeralsAreWords(b);
    NumeralsAreWords(c);
    NumeralsAreWords(d);
  }

  lemma TextIsPlain(x: real, y: real, font: Font, size: real)
    ensures forall i :: 0 <= i < 7 ==> PlainWord(TextWords(x, y, font, size)[i])
    ensures TextPrefix(x, y, font, size) == Joined(TextWords(x, y, font, size)) + " "
  {
    FontIsPlain(font);
    hide Fixed2, Joined, PlainWord, FontName;
    Keywords();
    NumbersArePlain(x, y, size, size);
    JoinedSeven("BT", "/" + FontName(font), Fixed2(size), "Tf", Fixed2(x), Fixed2(y), "Td");
  }

  lemma FontIsPlain(font: Font)
    ensures PlainWord("/" + FontName(font))
  {
    FontCharacters(font);
    hide FontName, PlainWord;
    PrintableIsPlain("/" + FontName(font));
  }

  predicate Printable(w: string) {
    forall i :: 0 <= i < |w| ==> '*' <= w[i] <= '~'
  }

  lemma FontCharacters(font: Font)
    ensures Printable(FontName(font))
  {}

  lemma PrintableIsPlain(w: string)
    requires w != "" && Printable(w)
    ensures PlainWord(w)
  {}

  /** One line of a content stream reads as the tokens of its operator. */
  lemma ReadsLine(op: Op, rest: string)
    requires Readable(op)
    ensures ReadTokens(EncodeBytes(Render(op)) + ("\n" + rest)) == Before(OpTokens(op), ReadTokens(rest))
  {
    ReadsBlank(rest);
    if op.Text? {
      var ws, after := TextWords(op.x, op.y, op.font, op.size), " " + Joined(["Tj", "ET"]) + ("\n" + rest);
      TextIsPlain(op.x, op.y, op.font, op.size);
      TextOperandReadsBack(op.text, after);
      RenderedText(op);
      hide ReadTokens, ReadLiteral, EncodeBytes, PlainWord, Joined;
      hide Words, EncodeText, Displayable, NormalizeEol, Render, TextWords;
      ReadsTextLine(ws, EncodeText(op.text), NormalizeEol(EncodeBytes(Displayable(op.text))), "\n" + rest);
    } else if op.Raw? {
      hide ReadTokens, EncodeBytes;
      EncodeAscii(op.line);
      ReadsLineAlone(op.line, "\n" + rest);
    } else {
      hide ReadTokens, EncodeBytes, PlainWord, Joined, Words, Render, OpTokens, Readable;
      var ws := RenderedWords(op);
      ReadsPrinted(ws, "\n" + rest);
    }
  }

  lemma RenderedText(op: Op)
    requires op.Text?
    ensures Render(op) == TextLine(TextWords(op.x, op.y, op.font, op.size), EncodeText(op.text))
    ensures OpTokens(op) == Words(TextWords(op.x, op.y, op.font, op.size))
                            + [Literal(NormalizeEol(EncodeBytes(Displayable(op.text))))] + Words(["Tj", "ET"])
  {
    TextIsPlain(op.x, op.y, op.font, op.size);
    LastWordsJoined();
    hide Joined, EncodeText, TextPrefix, Words, Displayable, NormalizeEol, EncodeBytes, PlainWord, Fixed2, FontName;
    TextParts(Joined(TextWords(op.x, op.y, op.font, op.size)), EncodeText(op.text));
  }

  lemma LastWordsJoined()
    ensures Joined(["Tj", "ET"]) == "Tj ET"
  {
    assert ["Tj", "ET"][1..] == ["ET"] && Joined(["ET"]) == "ET";
  }

  lemma TextParts(front: string, operand: string)
    ensures (front + " ") + "(" + operand + ")" + " Tj ET" == front + " (" + operand + ") " + "Tj ET"
  {}

  // ----- reading a page -----

  function AllTokens(ops: seq<Op>): seq<Token> {
    if ops == [] then [] else AllTokens(ops[..|ops| - 1]) + OpTokens(ops[|ops| - 1])
  }

  /** What the operators of a page read as, in order. */
  function AllShown(ops: seq<Op>): seq<Command>
    requires AllReadable(ops)
  {
    if ops == [] then [] else AllShown(ops[..|ops| - 1]) + Shows(ops[|ops| - 1])
  }

  lemma {:induction false} ReadsLines(ops: seq<Op>, rest: string)
    requires AllReadable(ops)
    ensures ReadTokens(EncodeBytes(Lines(ops)) + rest) == Before(AllTokens(ops), ReadTokens(rest))
  {
    hide ReadTokens, EncodeBytes, Render, OpTokens, Readable;
    if ops == [] {
      NothingEncoded();
      assert "" + rest == rest;
      NothingBefore(ReadTokens(rest));
    } else {
      var front, op := ops[..|ops| - 1], ops[|ops| - 1];
      EncodeAppend(Lines(front) + Render(op), "\n");
      EncodeAppend(Lines(front), Render(op));
      EncodeAscii("\n");
      var line := EncodeBytes(Render(op)) + ("\n" + rest);
      assert EncodeBytes(Lines(ops)) + rest == EncodeBytes(Lines(front)) + line;
      ReadsLines(front, line);
      ReadsLine(op, rest);
      BeforeBefore(AllTokens(front), OpTokens(op), ReadTokens(rest));
    }
  }

  lemma NothingEncoded()
    ensures EncodeBytes("") == ""
  {}

  lemma NothingBefore<T>(r: Option<seq<T>>)
    ensures Before([], r) == r
  {
    if r.Some? {
      assert [] + r.value == r.value;
    }
  }

  // ----- the commands of an operator -----

  lemma NumeralsAreNumbers(x: real)
    ensures OperandOf(Word(Fixed2(x))) == Some(Number(Rounded2(x)))
    ensures OperandOf(Word(Fixed3(x))) == Some(Number(Rounded3(x)))
  {
    NumeralsAreWords(x);
    hide Fixed2, Fixed3, ReadNumber, Rounded2, Rounded3;
    ReadsFixed2(x);
    ReadsFixed3(x);
  }

  lemma ShowsColor(c: Color, word: string)
    requires StartsWithLetter(word)
    ensures Commands(Words(ColorWords(c) + [word]), []) == Some([Command(word, ColorShown(c))])
  {
    hide OperandOf, Commands, Fixed3, Rounded3, StartsWithLetter;
    NumeralsAreNumbers(c.r);
    NumeralsAreNumbers(c.g);
    NumeralsAreNumbers(c.b);
    Spells(Words(ColorWords(c) + [word]), word, ColorShown(c));
  }

  lemma ShowsPoint(x: real, y: real, word: string)
    requires StartsWithLetter(word)
    ensures Commands(Words([Fixed2(x), Fixed2(y), word]), []) == Some([Command(word, PointShown(x, y))])
  {
    hide OperandOf, Commands, Fixed2, Rounded2, StartsWithLetter;
    NumeralsAreNumbers(x);
    NumeralsAreNumbers(y);
    Spells(Words([Fixed2(x), Fixed2(y), word]), word, PointShown(x, y));
  }

  lemma ShowsWord(word: string)
    requires StartsWithLetter(word)
    ensures Commands(Words([word]), []) == Some([Command(word, [])])
  {
    hide OperandOf, Commands, StartsWithLetter;
    Spells(Words([word]), word, []);
  }

  lemma ShowsRule(x1: real, y1: real, x2: real, y2: real)
    ensures Commands(OpTokens(Rule(x1, y1, x2, y2)), []) == Some(Shows(Rule(x1, y1, x2, y2)))
  {
    hide Commands, Fixed2, PointShown, StartsWithLetter;
    RuleLetters();
    ShowsPoint(x1, y1, "m");
    ShowsPoint(x2, y2, "l");
    ShowsWord("S");
    RuleParts(Fixed2(x1), Fixed2(y1), Fixed2(x2), Fixed2(y2), PointShown(x1, y1), PointShown(x2, y2));
  }

  lemma RuleLetters()
    ensures StartsWithLetter("m") && StartsWithLetter("l") && StartsWithLetter("S")
  {}

  lemma RuleParts(a: string, b: string, c: string, d: string, from: seq<Operand>, to: seq<Operand>)
    requires Commands(Words([a, b, "m"]), []) == Some([Command("m", from)])
    requires Commands(Words([c, d, "l"]), []) == Some([Command("l", to)])
    requires Commands(Words(["S"]), []) == Some([Command("S", [])])
    ensures Commands(Words([a, b, "m", c, d, "l", "S"]), [])
         == Some([Command("m", from), Command("l", to), Command("S", [])])
  {
    hide Commands;
    RulePieces(a, b, c, d);
    hide Words;
    ThenBoth(Words([a, b, "m"]), Words([c, d, "l"]), Words(["S"]), [Command("m", from)], [Command("l", to)],
             [Command("S", [])]);
    ThreeInOne(Command("m", from), Command("l", to), Command("S", []));
  }

  lemma ThreeInOne<T>(a: T, b: T, c: T)
    ensures [a] + [b] + [c] == [a, b, c]
  {}

  lemma RulePieces(a: string, b: string, c: string, d: string)
    ensures Words([a, b, "m", c, d, "l", "S"]) == Words([a, b, "m"]) + Words([c, d, "l"]) + Words(["S"])
  {}

  lemma ShowsBox(x: real, y: real, w: real, h: real)
    ensures Commands(OpTokens(Box(x, y, w, h)), []) == Some(Shows(Box(x, y, w, h)))
  {
    hide Commands, Fixed2, BoxShown;
    ShowsFour(x, y, w, h);
    ShowsWord("B");
    BoxParts(Fixed2(x), Fixed2(y), Fixed2(w), Fixed2(h), BoxShown(x, y, w, h));
  }

  lemma BoxParts(a: string, b: string, c: string, d: string, xs: seq<Operand>)
    requires Commands(Words([a, b, c, d, "re"]), []) == Some([Command("re", xs)])
    requires Commands(Words(["B"]), []) == Some([Command("B", [])])
    ensures Commands(Words([a, b, c, d, "re", "B"]), []) == Some([Command("re", xs), Command("B", [])])
  {
    hide Commands;
    assert Words([a, b, c, d, "re", "B"]) == Words([a, b, c, d, "re"]) + Words(["B"]);
    hide Words;
    Then(Words([a, b, c, d, "re"]), Words(["B"]), [Command("re", xs)], [Command("B", [])]);
    assert [Command("re", xs)] + [Command("B", [])] == [Command("re", xs), Command("B", [])];
  }

  lemma ShowsFour(x: real, y: real, w: real, h: real)
    ensures Commands(Words([Fixed2(x), Fixed2(y), Fixed2(w), Fixed2(h), "re"]), [])
         == Some([Command("re", BoxShown(x, y, w, h))])
  {
    hide OperandOf, Commands, Fixed2, Rounded2;
    NumeralsAreNumbers(x);
    NumeralsAreNumbers(y);
    NumeralsAreNumbers(w);
    NumeralsAreNumbers(h);
    FourOperands([Fixed2(x), Fixed2(y), Fixed2(w), Fixed2(h)], BoxShown(x, y, w, h));
    assert [Fixed2(x), Fixed2(y), Fixed2(w), Fixed2(h)] + ["re"] == [Fixed2(x), Fixed2(y), Fixed2(w), Fixed2(h), "re"];
  }

  lemma FourOperands(ws: seq<string>, xs: seq<Operand>)
    requires |ws| == |xs| && forall i :: 0 <= i < |xs| ==> OperandOf(Word(ws[i])) == Some(xs[i])
    ensures Commands(Words(ws + ["re"]), []) == Some([Command("re", xs)])
  {
    hide OperandOf, Commands;
    Spells(Words(ws + ["re"]), "re", xs);
  }

  /** The tokens of a text operator, by its font, the numerals of its size and position, and its bytes. */
  lemma ShowsText(font: string, size: string, x: string, y: string, bytes: string, vs: seq<real>)
    requires |vs| == 3 && OperandOf(Word(size)) == Some(Number(vs[0]))
    requires OperandOf(Word(x)) == Some(Number(vs[1])) && OperandOf(Word(y)) == Some(Number(vs[2]))
    ensures Commands(Words(["BT", "/" + font, size, "Tf", x, y, "Td"]) + [Literal(bytes)] + Words(["Tj", "ET"]), [])
         == Some(TextShown(vs[1], vs[2], font, vs[0], bytes))
  {
    hide OperandOf, Commands, Words;
    ShowsWord("BT");
    ShowsWord("ET");
    ShowsTextParts(font, size, x, y, bytes, vs);
    TextPieces(font, size, x, y, bytes);
    var a, b := Command("BT", []), Command("Tf", [Name(font), Number(vs[0])]);
    var c, d, e := Command("Td", [Number(vs[1]), Number(vs[2])]), Command("Tj", [Str(bytes)]), Command("ET", []);
    FiveParts(Words(["BT"]), Words(["/" + font, size, "Tf"]), Words([x, y, "Td"]), [Literal(bytes), Word("Tj")],
              Words(["ET"]), [a, b, c, d, e]);
  }

  lemma FiveParts(a: seq<Token>, b: seq<Token>, c: seq<Token>, d: seq<Token>, e: seq<Token>, cs: seq<Command>)
    requires |cs| == 5 && Commands(a, []) == Some([cs[0]]) && Commands(b, []) == Some([cs[1]])
    requires Commands(c, []) == Some([cs[2]]) && Commands(d, []) == Some([cs[3]]) && Commands(e, []) == Some([cs[4]])
    ensures Commands(a + b + c + d + e, []) == Some(cs)
  {
    hide Commands;
    ThenBoth(a, b, c, [cs[0]], [cs[1]], [cs[2]]);
    ThenBoth(a + b + c, d, e, [cs[0]] + [cs[1]] + [cs[2]], [cs[3]], [cs[4]]);
    assert [cs[0]] + [cs[1]] + [cs[2]] + [cs[3]] + [cs[4]] == cs;
  }

  lemma ShowsTextParts(font: string, size: string, x: string, y: string, bytes: string, vs: seq<real>)
    requires |vs| == 3 && OperandOf(Word(size)) == Some(Number(vs[0]))
    requires OperandOf(Word(x)) == Some(Number(vs[1])) && OperandOf(Word(y)) == Some(Number(vs[2]))
    ensures Commands(Words(["/" + font, size, "Tf"]), []) == Some([Command("Tf", [Name(font), Number(vs[0])])])
    ensures Commands(Words([x, y, "Td"]), []) == Some([Command("Td", [Number(vs[1]), Number(vs[2])])])
    ensures Commands([Literal(bytes), Word("Tj")], []) == Some([Command("Tj", [Str(bytes)])])
  {
    NamesAndStrings(font, bytes);
    hide OperandOf, Commands;
    TwoOperands("/" + font, size, "Tf", Name(font), Number(vs[0]));
    TwoOperands(x, y, "Td", Number(vs[1]), Number(vs[2]));
    StringOperand(bytes);
  }

  lemma TwoOperands(a: string, b: string, operator: string, x: Operand, y: Operand)
    requires OperandOf(Word(a)) == Some(x) && OperandOf(Word(b)) == Some(y) && StartsWithLetter(operator)
    ensures Commands(Words([a, b, operator]), []) == Some([Command(operator, [x, y])])
  {
    hide OperandOf, Commands, StartsWithLetter;
    Spells(Words([a, b, operator]), operator, [x, y]);
  }

  lemma StringOperand(bytes: string)
    ensures Commands([Literal(bytes), Word("Tj")], []) == Some([Command("Tj", [Str(bytes)])])
  {
    assert OperandOf(Literal(bytes)) == Some(Str(bytes));
    hide OperandOf, Commands;
    Spells([Literal(bytes), Word("Tj")], "Tj", [Str(bytes)]);
  }

  lemma NamesAndStrings(font: string, bytes: string)
    ensures OperandOf(Word("/" + font)) == Some(Name(font)) && OperandOf(Literal(bytes)) == Some(Str(bytes))
  {}

  lemma TextPieces(font: string, size: string, x: string, y: string, bytes: string)
    ensures Words(["BT", "/" + font, size, "Tf", x, y, "Td"]) + [Literal(bytes)] + Words(["Tj", "ET"])
         == Words(["BT"]) + Words(["/" + font, size, "Tf"]) + Words([x, y, "Td"]) + [Literal(bytes), Word("Tj")]
            + Words(["ET"])
  {}

  /** The tokens of an operator make up the commands it shows. */
  lemma ShowsOp(op: Op)
    requires Readable(op)
    ensures Commands(OpTokens(op), []) == Some(Shows(op))
  {
    match op
    case Fill(c) => ShowsColor(c, "rg");
    case Stroke(c) => ShowsColor(c, "RG");
    case Box(x, y, w, h) => ShowsBox(x, y, w, h);
    case Rule(x1, y1, x2, y2) => ShowsRule(x1, y1, x2, y2);
    case Raw(line) => LineMakesCommands(line);
    case Text(x, y, text, font, size) =>
      hide Fixed2, Rounded2, OperandOf, Commands, NormalizeEol, EncodeBytes, Displayable, FontName, TextShown;
      NumeralsAreNumbers(x);
      NumeralsAreNumbers(y);
      NumeralsAreNumbers(size);
      ShowsText(FontName(font), Fixed2(size), Fixed2(x), Fixed2(y), NormalizeEol(EncodeBytes(Displayable(text))),
                [Rounded2(size), Rounded2(x), Rounded2(y)]);
  }

  lemma {:induction false} ShowsAll(ops: seq<Op>)
    requires AllReadable(ops)
    ensures Commands(AllTokens(ops), []) == Some(AllShown(ops))
  {
    if ops == [] {
      assert Commands([], []) == Some([]);
    } else {
      var front, op := ops[..|ops| - 1], ops[|ops| - 1];
      hide Commands, OpTokens, Shows, Readable;
      ShowsAll(front);
      ShowsOp(op);
      Then(AllTokens(front), OpTokens(op), AllShown(front), Shows(op));
    }
  }

  // ----- the footer -----

  const FOOTER_WORDS: seq<string> := ["BT", "/F1", "8", "Tf", "54.00", "28.00", "Td"]

  function PageLabel(index: nat): string {
    "P\U{E1}gina " + Dec(index)
  }

  /** What the footer of page `index` reads as. */
  function FooterShown(index: nat): seq<Command> {
    TextShown(54.0, 28.0, "F1", 8.0, EncodeBytes(PageLabel(index)))
  }

  lemma {:induction false} EscapesNothing(s: string)
    requires forall i :: 0 <= i < |s| ==> s[i] !in {'\\', '(', ')', '\r'}
    ensures EscapeOnce(s) == s && NormalizeEol(s) == s
  {
    if s != "" {
      EscapesNothing(s[1..]);
      assert [s[0]] + s[1..] == s;
    }
  }

  lemma LabelReadsBack(index: nat, rest: string)
    ensures ReadLiteral(EncodeBytes(PageLabel(index)) + ")" + rest, 0) == Some((EncodeBytes(PageLabel(index)), rest))
  {
    hide ReadLiteral, Dec, C1Position;
    var text := PageLabel(index);
    var bytes := EncodeBytes(text);
    forall i | 0 <= i < |bytes| ensures bytes[i] !in {'\\', '(', ')', '\r'} {
      if i >= 7 {
        assert text[i] == Dec(index)[i - 7] && IsDigit(text[i]);
      }
    }
    EscapesNothing(bytes);
    EscapedReadsBack(bytes, rest);
  }

  lemma WholeNumber(whole: string)
    requires |whole| == 2 && AllDigits(whole)
    ensures OperandOf(Word(whole + "." + "00"))
         == Some(Number((10 * DigitValue(whole[0]) + DigitValue(whole[1])) as real))
  {
    ReadsPointed(whole, "00");
    hide ReadUnsigned;
    TwoDigits(whole);
    TwoDigits("00");
    assert Pow10(2) == 100;
    assert (whole + "." + "00")[0] == whole[0];
  }

  lemma TwoDigits(s: string)
    requires |s| == 2 && AllDigits(s)
    ensures Value(s) == 10 * DigitValue(s[0]) + DigitValue(s[1])
  {
    assert s[..1] == [s[0]];
    assert [s[0]][..0] == "" && Value([s[0]]) == DigitValue(s[0]);
  }

  lemma OneDigit(c: char)
    requires IsDigit(c)
    ensures OperandOf(Word([c])) == Some(Number(DigitValue(c) as real))
  {
    assert [c][1..] == "" && Point("") == 0 && Point([c]) == 1;
    assert [c][..1] == [c] && [c][..0] == "" && Value([c]) == DigitValue(c);
    assert Value("") == 0 && Pow10(0) == 1;
    hide Point, Value, Pow10;
    assert ReadUnsigned([c]) == FromParts([c], "");
  }

  lemma FooterWordsArePlain()
    ensures forall i :: 0 <= i < |FOOTER_WORDS| ==> PlainWord(FOOTER_WORDS[i])
  {
    assert forall i :: 0 <= i < 7 ==> FOOTER_WORDS[i] != "" && Printable(FOOTER_WORDS[i]);
    hide PlainWord, Printable, FOOTER_WORDS;
    forall i | 0 <= i < |FOOTER_WORDS| ensures PlainWord(FOOTER_WORDS[i]) {
      PrintableIsPlain(FOOTER_WORDS[i]);
    }
  }

  lemma FooterIsTextLine(index: nat)
    ensures Footer(index) == TextLine(FOOTER_WORDS, PageLabel(index))
    ensures forall i :: 0 <= i < |FOOTER_WORDS| ==> PlainWord(FOOTER_WORDS[i])
  {
    FooterWordsArePlain();
    JoinedSeven("BT", "/F1", "8", "Tf", "54.00", "28.00", "Td");
    LastWordsJoined();
    FooterText();
    hide Joined, Dec, PlainWord;
  }

  lemma FooterText()
    ensures "BT" + " " + "/F1" + " " + "8" + " " + "Tf" + " " + "54.00" + " " + "28.00" + " " + "Td"
         == "BT /F1 8 Tf 54.00 28.00 Td"
  {}

  lemma ReadsFooter(index: nat)
    ensures ReadTokens(EncodeBytes(Footer(index)))
         == Some(Words(FOOTER_WORDS) + [Literal(EncodeBytes(PageLabel(index)))] + Words(["Tj", "ET"]))
  {
    FooterIsTextLine(index);
    LabelReadsBack(index, " " + Joined(["Tj", "ET"]) + "");
    ReadsFooterLine(FOOTER_WORDS, PageLabel(index), EncodeBytes(PageLabel(index)));
  }

  lemma ReadsFooterLine(ws: seq<string>, operand: string, bytes: string)
    requires ws != [] && forall i :: 0 <= i < |ws| ==> PlainWord(ws[i])
    requires var after := " " + Joined(["Tj", "ET"]) + "";
             ReadLiteral(EncodeBytes(operand) + ")" + after, 0) == Some((bytes, after))
    ensures ReadTokens(EncodeBytes(TextLine(ws, operand))) == Some(Words(ws) + [Literal(bytes)] + Words(["Tj", "ET"]))
  {
    assert ReadTokens("") == Some([]);
    hide ReadTokens, ReadLiteral, EncodeBytes, PlainWord, Joined, TextLine, Words;
    ReadsTextLine(ws, operand, bytes, "");
    assert EncodeBytes(TextLine(ws, operand)) + "" == EncodeBytes(TextLine(ws, operand));
    var ts := Words(ws) + [Literal(bytes)] + Words(["Tj", "ET"]);
    assert ts + [] == ts;
  }

  lemma FooterCommands(index: nat)
    ensures Commands(Words(FOOTER_WORDS) + [Literal(EncodeBytes(PageLabel(index)))] + Words(["Tj", "ET"]), [])
         == Some(FooterShown(index))
  {
    FooterOperands();
    hide OperandOf, Commands, PageLabel, EncodeBytes, TextShown, Words;
    assert "/" + "F1" == "/F1";
    ShowsText("F1", "8", "54.00", "28.00", EncodeBytes(PageLabel(index)), [8.0, 54.0, 28.0]);
  }

  lemma FooterOperands()
    ensures OperandOf(Word("8")) == Some(Number(8.0))
    ensures OperandOf(Word("54.00")) == Some(Number(54.0)) && OperandOf(Word("28.00")) == Some(Number(28.0))
  {
    hide OperandOf;
    WholeNumber("54");
    WholeNumber("28");
    OneDigit('8');
    assert "54" + "." + "00" == "54.00" && "28" + "." + "00" == "28.00" && ['8'] == "8";
  }

  /**
   The content stream of a page reads as the commands of the page's operators in order, each with its numbers as
   printed and its text as displayable bytes, and then as those of the footer.
   */
  lemma ContentReadsBack(ops: seq<Op>, index: nat)
    requires AllReadable(ops)
    ensures ReadContent(EncodeBytes(StreamText(ops, index))) == Some(AllShown(ops) + FooterShown(index))
  {
    hide ReadTokens, Commands, EncodeBytes, Lines, Footer;
    hide AllTokens, AllShown, FooterShown, Words, PageLabel, FOOTER_WORDS;
    hide AllReadable;
    EncodeAppend(Lines(ops), Footer(index));
    ReadsLines(ops, EncodeBytes(Footer(index)));
    ReadsFooter(index);
    FooterCommands(index);
    ShowsAll(ops);
    Then(AllTokens(ops), Words(FOOTER_WORDS) + [Literal(EncodeBytes(PageLabel(index)))] + Words(["Tj", "ET"]),
         AllShown(ops), FooterShown(index));
  }

  // ----- a whole manual -----

  lemma ReadableColors()
    ensures ReadableLine("0.086 0.133 0.208 rg") && ReadableLine("1 1 1 rg") && ReadableLine("0.965 0.972 0.98 rg")
  {}

  lemma MoreReadableColors()
    ensures ReadableLine("0.80 0.84 0.90 RG") && ReadableLine("0.76 0.82 0.9 rg")
    ensures ReadableLine("0.145 0.161 0.184 rg")
  {}

  lemma ReadableFills()
    ensures ReadableLine("0 0 595.28 841.89 re f") && ReadableLine("54.00 86.00 487.28 1.5 re f")
  {}

  lemma ReadablePanels()
    ensures ReadableLine("54.00 581.89 487.28 146 re f") && ReadableLine("54.00 581.89 487.28 146 re S")
  {}

  /** The lines of the cover that are written out as they stand can be read. */
  lemma CoverLinesAreReadable()
    ensures AllReadable(COVER_FRONT) && AllReadable(COVER_PANEL) && AllReadable(COVER_LINE)
  {
    hide ReadableLine;
    ReadableColors();
    MoreReadableColors();
    ReadableFills();
    ReadablePanels();
  }
}
