/** `PDFWriter.build`: operators rendered to text, pages to content streams, streams to the bytes of a file. */
module PdfBuild {
  import opened Results
  import opened Decimal
  import opened PdfWrap
  import opened PdfLayout
  import opened PdfText
  import opened PdfFile
  import PdfRoundTrip

  function FontName(font: Font): string {
    match font
    case Helvetica => "Helvetica"
    case HelveticaBold => "Helvetica-Bold"
    case HelveticaOblique => "Helvetica-Oblique"
  }

  function ColorText(c: Color): string {
    Fixed3(c.r) + " " + Fixed3(c.g) + " " + Fixed3(c.b)
  }

  function PointText(x: real, y: real): string {
    Fixed2(x) + " " + Fixed2(y)
  }

  function TextPrefix(x: real, y: real, font: Font, size: real): string {
    "BT /" + FontName(font) + " " + Fixed2(size) + " Tf " + PointText(x, y) + " Td "
  }

  /** The line of a content stream that an operator becomes. */
  function Render(op: Op): string {
    match op
    case Fill(c) => ColorText(c) + " rg"
    case Stroke(c) => ColorText(c) + " RG"
    case Text(x, y, text, font, size) => TextPrefix(x, y, font, size) + "(" + EncodeText(text) + ")" + " Tj ET"
    case Rule(x1, y1, x2, y2) => PointText(x1, y1) + " m " + PointText(x2, y2) + " l S"
    case Box(x, y, w, h) => PointText(x, y) + " " + PointText(w, h) + " re B"
    case Raw(line) => line
  }

  /** The lines of a page, each ended, and the footer that closes it. */
  function Lines(ops: seq<Op>): string {
    if ops == [] then "" else
    var k := |ops| - 1;
    Lines(ops[..k]) + Render(ops[k]) + "\n"
  }

  function Footer(index: nat): string {
    "BT /F1 8 Tf 54.00 28.00 Td (P\U{E1}gina " + Dec(index) + ") Tj ET"
  }

  function StreamText(ops: seq<Op>, index: nat): string {
    Lines(ops) + Footer(index)
  }

  /** The bytes of the content streams of a document's pages. */
  function Streams(pages: seq<seq<Op>>): seq<string> {
    seq(|pages|, k requires 0 <= k < |pages| => EncodeBytes(StreamText(pages[k], k + 1)))
  }

  lemma EncodeAppend(a: string, b: string)
    ensures EncodeBytes(a + b) == EncodeBytes(a) + EncodeBytes(b)
  {
    hide Cp1252;
  }

  lemma EncodeAscii(s: string)
    requires forall i :: 0 <= i < |s| ==> s[i] as int < 0x80
    ensures EncodeBytes(s) == s
  {}

  lemma EncodedDict(ts: seq<string>)
    requires AreTokens(ts)
    ensures EncodeBytes(Print(ts)) == Print(ts)
  {
    hide Print;
    PrintedAscii(ts);
    EncodeAscii(Print(ts));
  }

  lemma EncodedContent(stream: string)
    ensures var data := EncodeBytes(stream);
            EncodeBytes(Print(["<<", "/Length", Dec(|data|), ">>"]) + "\nstream\n" + stream + "\nendstream")
              == Content(data).Text()
  {
    hide Print, Dec, EncodeBytes, IsToken;
    var data := EncodeBytes(stream);
    var dict := Print(["<<", "/Length", Dec(|data|), ">>"]);
    PdfRoundTrip.LengthTokens(|data|);
    EncodedDict(["<<", "/Length", Dec(|data|), ">>"]);
    EncodeAppend(dict + "\nstream\n" + stream, "\nendstream");
    EncodeAppend(dict + "\nstream\n", stream);
    EncodeAppend(dict, "\nstream\n");
    EncodeAscii("\nstream\n");
    EncodeAscii("\nendstream");
  }

  // ----- build -----

  /** The text of every object, in the order of the object numbers. */
  function TextsOf(objs: seq<PdfObject>): (r: seq<string>)
    ensures |r| == |objs|
    ensures forall i :: 0 <= i < |objs| ==> r[i] == objs[i].Text()
  {
    seq(|objs|, i requires 0 <= i < |objs| => objs[i].Text())
  }

  /** The closure `obj`: appends an encoded object and gives its number. */
  method AddObject(objects: seq<string>, text: string) returns (more: seq<string>, id: nat)
    ensures more == objects + [EncodeBytes(text)] && id == |objects| + 1
  {
    more := objects + [EncodeBytes(text)];
    id := |more|;
  }

  method JoinLines(ops: seq<Op>, index: nat) returns (stream: string)
    ensures stream == StreamText(ops, index)
  {
    hide Render;
    stream := "";
    for i := 0 to |ops|
      invariant stream == Lines(ops[..i])
    {
      assert ops[..i + 1][..i] == ops[..i];
      stream := stream + Render(ops[i]) + "\n";
    }
    assert ops[..|ops|] == ops;
    stream := stream + Footer(index);
  }

  method AddDict(objects: seq<string>, ts: seq<string>) returns (more: seq<string>, id: nat)
    requires AreTokens(ts)
    ensures more == objects + [Print(ts)] && id == |objects| + 1
  {
    hide Print, IsToken;
    EncodedDict(ts);
    more, id := AddObject(objects, Print(ts));
  }

  method AddFonts() returns (objects: seq<string>)
    ensures objects == TextsOf(FONT_OBJECTS)
  {
    hide Print, FontDict, IsToken, AreTokens;
    PdfRoundTrip.FontLiterals();
    var id;
    objects, id := AddDict([], FontDict("/Helvetica"));
    objects, id := AddDict(objects, FontDict("/Helvetica-Bold"));
    objects, id := AddDict(objects, FontDict("/Helvetica-Oblique"));
  }

  method AddContents(start: seq<string>, pages: seq<seq<Op>>) returns (objects: seq<string>, contentIds: seq<nat>)
    requires |start| == 3
    ensures objects == start + TextsOf(ContentObjects(Streams(pages)))
    ensures |contentIds| == |pages| && forall k :: 0 <= k < |pages| ==> contentIds[k] == ContentId(k)
  {
    hide Print, EncodeBytes, StreamText, Dec;
    objects, contentIds := start, [];
    for k := 0 to |pages|
      invariant |contentIds| == k && forall j :: 0 <= j < k ==> contentIds[j] == ContentId(j)
      invariant objects == start + TextsOf(ContentObjects(Streams(pages)))[..k]
    {
      var stream := JoinLines(pages[k], k + 1);
      EncodedContent(stream);
      var id;
      objects, id := AddObject(objects, Print(["<<", "/Length", Dec(|EncodeBytes(stream)|), ">>"])
                                        + "\nstream\n" + stream + "\nendstream");
      contentIds := contentIds + [id];
      assert Streams(pages)[k] == EncodeBytes(stream);
      assert TextsOf(ContentObjects(Streams(pages)))[k] == Content(EncodeBytes(stream)).Text();
    }
    var all := TextsOf(ContentObjects(Streams(pages)));
    assert all[..|pages|] == all;
  }

  method AddPages(start: seq<string>, pagesId: nat, contentIds: seq<nat>)
    returns (objects: seq<string>, pageIds: seq<nat>)
    requires |start| == 3 + |contentIds| && pagesId == PagesId(|contentIds|)
    requires forall k :: 0 <= k < |contentIds| ==> contentIds[k] == ContentId(k)
    ensures objects == start + TextsOf(PageObjects(|contentIds|))
    ensures |pageIds| == |contentIds| && forall k :: 0 <= k < |pageIds| ==> pageIds[k] == PageId(|contentIds|, k)
  {
    hide Print, PageDict, IsToken;
    objects, pageIds := start, [];
    var n := |contentIds|;
    for k := 0 to n
      invariant |pageIds| == k && forall j :: 0 <= j < k ==> pageIds[j] == PageId(n, j)
      invariant objects == start + TextsOf(PageObjects(n))[..k]
    {
      PdfRoundTrip.PageTokens(pagesId, contentIds[k]);
      var id;
      objects, id := AddDict(objects, PageDict(pagesId, contentIds[k]));
      pageIds := pageIds + [id];
      assert TextsOf(PageObjects(n))[k] == Print(PageDict(pagesId, ContentId(k)));
    }
    assert TextsOf(PageObjects(n))[..n] == TextsOf(PageObjects(n));
  }

  /** The references of /Kids, in page order. */
  function KidTokens(ids: seq<nat>): seq<string> {
    if ids == [] then [] else Ref(ids[0]) + KidTokens(ids[1..])
  }

  lemma {:induction false} KidTokensAreRefs(ids: seq<nat>, from: nat)
    requires forall k :: 0 <= k < |ids| ==> ids[k] == from + k
    ensures KidTokens(ids) == Refs(from, |ids|)
  {
    if ids != [] {
      KidTokensAreRefs(ids[1..], from + 1);
    }
  }

  method AddTree(start: seq<string>, pageIds: seq<nat>) returns (objects: seq<string>, catalogId: nat, infoId: nat)
    requires |start| == 3 + 2 * |pageIds|
    requires forall k :: 0 <= k < |pageIds| ==> pageIds[k] == PageId(|pageIds|, k)
    ensures objects == start + TextsOf(LastObjects(|pageIds|))
    ensures catalogId == PagesId(|pageIds|) + 1 && infoId == PagesId(|pageIds|) + 2
  {
    hide Print, CatalogDict, AreTokens, Dec, Refs;
    var n := |pageIds|;
    KidTokensAreRefs(pageIds, PageId(n, 0));
    PdfRoundTrip.PagesTokens(PageId(n, 0), n);
    PdfRoundTrip.CatalogTokens(PagesId(n));
    PdfRoundTrip.FontLiterals();
    var pagesId;
    objects, pagesId := AddDict(start, ["<<", "/Type", "/Pages", "/Kids", "["] + KidTokens(pageIds)
                                       + ["]", "/Count", Dec(|pageIds|), ">>"]);
    objects, catalogId := AddDict(objects, CatalogDict(pagesId));
    objects, infoId := AddDict(objects, INFO_DICT);
  }

  /** Objects written one after the other, and the position each of them starts at. */
  method WriteBody(objects: seq<string>, ghost objs: seq<PdfObject>) returns (result: string, positions: seq<nat>)
    requires objects == TextsOf(objs)
    ensures result == Body(objs)
    ensures |positions| == |objs| && forall i :: 0 <= i < |objs| ==> positions[i] == |Body(objs[..i])|
  {
    hide Dec, Body, ObjectText;
    BodyStarts(objs);
    result, positions := HEADER, [];
    for k := 0 to |objects|
      invariant result == Body(objs[..k])
      invariant |positions| == k && forall i :: 0 <= i < k ==> positions[i] == |Body(objs[..i])|
    {
      BodyStep(objs, k);
      positions := positions + [|result|];
      result := result + (Dec(k + 1) + " 0 obj\n");
      result := result + objects[k];
      result := result + "\nendobj\n";
    }
    assert objs[..|objs|] == objs;
  }

  lemma BodyStarts(objs: seq<PdfObject>)
    ensures Body(objs[..0]) == HEADER
  {}

  lemma BodyStep(objs: seq<PdfObject>, k: nat)
    requires k < |objs|
    ensures Body(objs[..k + 1]) == Body(objs[..k]) + (Dec(k + 1) + " 0 obj\n") + objs[k].Text() + "\nendobj\n"
  {
    hide Dec, Print;
    assert objs[..k + 1][..k] == objs[..k];
    assert Body(objs[..k + 1]) == Body(objs[..k]) + ObjectText(k + 1, objs[k]);
    Regrouped(Body(objs[..k]), Dec(k + 1) + " 0 obj\n", objs[k].Text(), "\nendobj\n");
  }

  lemma Regrouped(a: string, b: string, c: string, d: string)
    ensures a + (b + (c + d)) == a + b + c + d
  {}

  method WriteXref(start: string, positions: seq<nat>, ghost objs: seq<PdfObject>) returns (result: string)
    requires |positions| == |objs| && forall i :: 0 <= i < |objs| ==> positions[i] == |Body(objs[..i])|
    ensures result == start + XrefText(objs)
  {
    hide Dec, Body, XrefEntry;
    var front := start + ("xref\n0 " + Dec(|positions| + 1) + "\n");
    result := front + FREE_ENTRY;
    for k := 0 to |positions|
      invariant result == front + XrefEntries(objs, k)
    {
      result := result + XrefEntry(positions[k]);
      assert XrefEntries(objs, k + 1) == XrefEntries(objs, k) + XrefEntry(|Body(objs[..k])|);
    }
  }

  method BuildFile(pages: seq<seq<Op>>) returns (result: string)
    ensures result == FileText(Streams(pages))
  {
    hide Body, XrefText, ContentObjects, PageObjects, LastObjects, Print, Streams, TrailerDict, TextsOf, Objects, Dec;
    ghost var data := Streams(pages);
    ghost var objs := Objects(data);
    StreamsCount(pages);
    var objects := AddFonts();
    var contentIds, pageIds, catalogId, infoId;
    objects, contentIds := AddContents(objects, pages);
    ObjectCounts(data);
    var pagesId := |objects| + |contentIds| + 1;
    objects, pageIds := AddPages(objects, pagesId, contentIds);
    objects, catalogId, infoId := AddTree(objects, pageIds);
    AllTexts(data);
    var positions, body;
    body, positions := WriteBody(objects, objs);
    result := WriteXref(body, positions, objs);
    result := result + ("trailer " + Print(TrailerDict(|objects| + 1, catalogId, infoId)) + "\nstartxref\n"
                        + Dec(|body|) + "\n%%EOF");
  }

  lemma AllTexts(data: seq<string>)
    ensures TextsOf(FONT_OBJECTS) + TextsOf(ContentObjects(data)) + TextsOf(PageObjects(|data|))
          + TextsOf(LastObjects(|data|))
         == TextsOf(Objects(data))
  {
    hide FONT_OBJECTS, ContentObjects, PageObjects, LastObjects, Print;
  }

  lemma ObjectCounts(data: seq<string>)
    ensures |FONT_OBJECTS| == 3 && |ContentObjects(data)| == |data| && |PageObjects(|data|)| == |data|
  {}

  lemma StreamsCount(pages: seq<seq<Op>>)
    ensures |Streams(pages)| == |pages|
  {}

  // ----- what the file shows -----

  lemma {:induction false} LineInPage(ops: seq<Op>, i: nat) returns (before: string, after: string)
    requires i < |ops|
    ensures Lines(ops) == before + Render(ops[i]) + after
  {
    hide Render;
    var k := |ops| - 1;
    if i == k {
      before, after := Lines(ops[..k]), "\n";
    } else {
      before, after := LineInPage(ops[..k], i);
      assert before + Render(ops[i]) + after + Render(ops[k]) + "\n"
          == before + Render(ops[i]) + (after + Render(ops[k]) + "\n");
      after := after + Render(ops[k]) + "\n";
    }
  }

  /**
   Every text operator of a page stands in the page's content stream as a literal string which the reader of
   section 7.3.4.2 reads, up to its own closing parenthesis, as the displayable text in cp1252.
   */
  lemma TextIsInStream(ops: seq<Op>, index: nat, i: nat) returns (before: string, after: string)
    requires i < |ops| && ops[i].Text?
    ensures var operand := EncodeBytes(EncodeText(ops[i].text));
            && EncodeBytes(StreamText(ops, index)) == before + "(" + operand + ")" + after
            && ReadLiteral(operand + ")" + after, 0)
               == Some((NormalizeEol(EncodeBytes(Displayable(ops[i].text))), after))
  {
    hide ReadLiteral, EncodeText, Footer, TextPrefix, Lines, EncodeBytes, NormalizeEol, Displayable;
    var front, back := LineInPage(ops, i);
    var op := ops[i];
    var prefix := front + TextPrefix(op.x, op.y, op.font, op.size);
    var suffix := " Tj ET" + back + Footer(index);
    assert StreamText(ops, index) == prefix + "(" + EncodeText(op.text) + ")" + suffix;
    EncodeAppend(prefix + "(" + EncodeText(op.text) + ")", suffix);
    EncodeAppend(prefix + "(" + EncodeText(op.text), ")");
    EncodeAppend(prefix + "(", EncodeText(op.text));
    EncodeAppend(prefix, "(");
    EncodeAscii("(");
    EncodeAscii(")");
    before, after := EncodeBytes(prefix), EncodeBytes(suffix);
    TextOperandReadsBack(op.text, after);
  }

  /** A token that is no name beginning with a capital H. */
  predicate NoFontName(tok: string) {
    |tok| < 2 || tok[0] != '/' || tok[1] != 'H'
  }

  lemma PageDictNamesNoFont(pagesId: nat, contentId: nat)
    ensures forall tok :: tok in PageDict(pagesId, contentId) ==> NoFontName(tok)
  {
    hide Dec;
    assert NoFontName(Dec(pagesId)) && NoFontName(Dec(contentId));
  }

  /**
   The text operators name their fonts after the base fonts, but a page's dictionary only defines F1, F2 and F3,
   the names the footer uses: every text operator of a page names a font of that page exactly when the page has
   no text operator.
   */
  lemma FontsFoundIff(pages: seq<seq<Op>>, k: nat)
    requires k < |pages|
    ensures var dict := PageDict(PagesId(|pages|), ContentId(k));
            && "/F1" in dict
            && ((forall op :: op in pages[k] && op.Text? ==> "/" + FontName(op.font) in dict)
                <==> forall op :: op in pages[k] ==> !op.Text?)
  {
    hide PagesId, ContentId;
    var dict := PageDict(PagesId(|pages|), ContentId(k));
    PageDictNamesNoFont(PagesId(|pages|), ContentId(k));
    forall op | op in pages[k] && op.Text? ensures "/" + FontName(op.font) !in dict {
      assert !NoFontName("/" + FontName(op.font));
    }
    assert "/F1" in dict by {
      hide Ref;
      assert FONT_RESOURCES[4] == "/F1";
    }
  }

  // ----- lines without carriage returns -----

  lemma DisplayKeepsReturns(text: string)
    ensures '\r' in EncodeBytes(Displayable(text)) <==> '\r' in text
  {
    hide C1Position;
    var d := EncodeBytes(Displayable(text));
    forall i | 0 <= i < |text| ensures d[i] == '\r' <==> text[i] == '\r' {}
    if '\r' in text {
      var i :| 0 <= i < |text| && text[i] == '\r';
      assert d[i] == '\r';
    }
  }

  /**
   The operand of a text operator reads back as exactly its displayable text if and only if it has no carriage return.
   */
  lemma TextReadsBackIff(text: string, rest: string)
    ensures ReadLiteral(EncodeBytes(EncodeText(text)) + ")" + rest, 0) == Some((EncodeBytes(Displayable(text)), rest))
       <==> '\r' !in text
  {
    hide ReadLiteral, EncodeText, EncodeBytes, Displayable;
    DisplayKeepsReturns(text);
    TextOperandReadsBack(text, rest);
    NormalizeEolIdentity(EncodeBytes(Displayable(text)));
  }

  /**
   A line of a wrapped text, of a paragraph or a table cell, reads back as exactly its displayable text: white
   space goes into the breaking of lines, so no line holds a carriage return.
   */
  lemma WrappedTextReadsBack(text: string, size: real, width: real, font: Font, i: nat, rest: string)
    requires size > 0.0
    requires i < |EstimateLines(text, size, width, font)|
    ensures var line := EstimateLines(text, size, width, font)[i];
            ReadLiteral(EncodeBytes(EncodeText(line)) + ")" + rest, 0) == Some((EncodeBytes(Displayable(line)), rest))
  {
    hide ReadLiteral, EncodeText, EncodeBytes, Displayable, EstimateLines;
    var line := EstimateLines(text, size, width, font)[i];
    LinesAreBlankFree(text, size, width, font, i);
    TextReadsBackIff(line, rest);
  }
}
