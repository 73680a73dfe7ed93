/**
 From a whole manual to what a reader of its file sees: the file's pages hold the commands of the manual's operators,
 in order, with a footer at the end of every page.
 */
module PdfManual {
  import opened PdfLayout
  import opened PdfContent
  import opened PdfWrap
  import opened PdfWriter
  import opened Results
  import opened Sums
  import PdfBuild
  import PdfFile
  import PdfRoundTrip

  lemma {:induction false} LinesAreReadable(x: real, y: real, lines: seq<string>, leading: real, font: Font,
                                            size: real, color: Color)
    ensures AllReadable(LineOps(x, y, lines, leading, font, size, color))
  {
    hide ReadableLine, Times;
    if lines != [] {
      LinesAreReadable(x, y, lines[..|lines| - 1], leading, font, size, color);
    }
  }

  lemma {:induction false} RowIsReadable(cells: seq<string>, header: bool, y: real, h: real, cols: seq<real>)
    requires |cells| <= |cols|
    ensures AllReadable(RowOps(cells, header, y, h, cols))
  {
    hide ReadableLine, LineOps, CellLines, Sum;
    if cells != [] {
      var k := |cells| - 1;
      RowIsReadable(cells[..k], header, y, h, cols);
      var x := MARGIN_X + Sum(cols[..k]);
      LinesAreReadable(x + 5.0, y - 14.0, CellLines(cells[k], header, cols[k]), RowSize(header) * 1.35, RowFont(header),
                       RowSize(header), if header then HEADER_INK else INK);
    }
  }

  lemma {:induction false} RowsAreReadable(rows: seq<seq<string>>, y: real, hs: seq<real>, cols: seq<real>)
    requires |rows| <= |hs|
    requires forall i :: 0 <= i < |rows| ==> |rows[i]| <= |cols|
    ensures AllReadable(RowsOps(rows, y, hs, cols))
  {
    hide Readable, RowOps, Sum;
    if rows != [] {
      var k := |rows| - 1;
      RowsAreReadable(rows[..k], y, hs, cols);
      RowIsReadable(rows[k], k == 0, y - Sum(hs[..k]), hs[k], cols);
    }
  }

  lemma BlockIsReadable(s: Sheet, b: Block)
    requires ValidBlock(b)
    ensures AllReadable(BlockOps(s, b))
  {
    hide ReadableLine, LineOps, RowsOps, Ensure, LayoutTitle;
    match b
    case ParaBlock(p) =>
      LinesAreReadable(MARGIN_X + p.indent, Ensure(s, p.Needed()).y, p.Lines(), p.Leading(), p.font, p.size, p.color);
    case HeadingBlock(_, _) =>
    case TableBlock(t) =>
      if t.Drawable() {
        RowsAreReadable(t.AllRows(), Ensure(LayoutTitle(s, t), t.TotalHeight() + 8.0).y,
                        Heights(t.AllRows(), t.Cols()), t.Cols());
      }
  }

  lemma {:induction false} BlocksAreReadable(s: Sheet, bs: seq<Block>)
    requires forall i :: 0 <= i < |bs| ==> ValidBlock(bs[i])
    ensures AllReadable(DocumentOps(s, bs))
    decreases |bs|
  {
    hide Readable, BlockOps, LayoutBlock, ValidBlock;
    if bs != [] {
      BlockIsReadable(s, bs[0]);
      BlocksAreReadable(LayoutBlock(s, bs[0]).0, bs[1..]);
    }
  }

  lemma {:induction false} EntriesAreReadable(entries: seq<(string, string)>, y: real)
    ensures AllReadable(EntriesOps(entries, y))
  {
    hide ReadableLine, Times;
    if entries != [] {
      EntriesAreReadable(entries[..|entries| - 1], y);
    }
  }

  lemma CoverIsReadable(c: Cover)
    ensures AllReadable(CoverOps(c))
  {
    hide ReadableLine, EntriesOps;
    CoverLinesAreReadable();
    hide COVER_FRONT, COVER_PANEL, COVER_LINE;
    EntriesAreReadable(c.metadata, PAGE_HEIGHT - 292.0);
  }

  lemma ManualIsReadable(s: Sheet, es: seq<Element>)
    ensures AllReadable(ManualOps(s, es))
  {
    hide Readable, CoverOps, DocumentOps, LayoutCover, AllBlocks;
    match FirstCover(es)
    case None =>
    case Some(cover) =>
      CoverIsReadable(cover);
      BlocksAreReadable(PdfLayout.NewPage(LayoutCover(s, cover)), AllBlocks(es));
  }

  lemma {:induction false} PageInConcat(pages: seq<seq<Op>>, k: nat)
    requires k < |pages| && AllReadable(Concat(pages))
    ensures AllReadable(pages[k])
  {
    hide Readable;
    var last := |pages| - 1;
    var front := Concat(pages[..last]);
    assert Concat(pages) == front + pages[last];
    if k == last {
      forall i | 0 <= i < |pages[k]| ensures Readable(pages[k][i]) {
        assert Concat(pages)[|front| + i] == pages[k][i];
      }
    } else {
      assert forall i :: 0 <= i < |front| ==> front[i] == Concat(pages)[i];
      PageInConcat(pages[..last], k);
    }
  }

  /** What the pages read as, one page after the other. */
  function Shown(pages: seq<seq<Op>>): seq<Command>
    requires forall k :: 0 <= k < |pages| ==> AllReadable(pages[k])
  {
    if pages == [] then [] else Shown(pages[..|pages| - 1]) + AllShown(pages[|pages| - 1])
  }

  lemma {:induction false} ShownAppend(a: seq<Op>, b: seq<Op>)
    requires AllReadable(a) && AllReadable(b)
    ensures AllReadable(a + b) && AllShown(a + b) == AllShown(a) + AllShown(b)
    decreases |b|
  {
    hide Readable, Shows;
    if b == [] {
      assert a + b == a;
    } else {
      var front, op := b[..|b| - 1], b[|b| - 1];
      ShownAppend(a, front);
      assert (a + b)[..|a + b| - 1] == a + front;
    }
  }

  lemma {:induction false} ShownInOrder(pages: seq<seq<Op>>)
    requires forall k :: 0 <= k < |pages| ==> AllReadable(pages[k])
    ensures AllReadable(Concat(pages)) && AllShown(Concat(pages)) == Shown(pages)
  {
    hide Readable, AllShown;
    if pages == [] {
      NothingShown();
    } else {
      var last := |pages| - 1;
      ShownInOrder(pages[..last]);
      ShownAppend(Concat(pages[..last]), pages[last]);
    }
  }

  lemma NothingShown()
    ensures AllShown([]) == []
  {}

  /** The pages of a manual, the last of them the one being filled. */
  function ManualPages(es: seq<Element>): (pages: seq<seq<Op>>)
    ensures |pages| > 0
  {
    var s := LayoutManual(BLANK, es).0;
    s.pages + [s.current]
  }

  lemma ManualFlat(es: seq<Element>, cover: Cover)
    requires FirstCover(es) == Some(cover)
    ensures Flat(LayoutManual(BLANK, es).0) == ManualOps(BLANK, es)
  {
    hide Flat, Layout, DocumentOps, CoverOps, AllBlocks;
    var first := PdfLayout.NewPage(LayoutCover(BLANK, cover));
    CoverPage(cover);
    CoverDraws(cover);
    OnePage(CoverOps(cover));
    DocumentOnPagesIff(first, AllBlocks(es));
  }

  lemma PagesHoldManual(es: seq<Element>)
    ensures Concat(ManualPages(es)) == ManualOps(BLANK, es)
  {
    var s := LayoutManual(BLANK, es).0;
    assert ManualPages(es)[..|s.pages|] == s.pages && ManualPages(es)[|s.pages|] == s.current;
    assert Concat(ManualPages(es)) == Flat(s);
    hide LayoutManual, ManualPages, Concat;
    match FirstCover(es)
    case None => NothingLaidOut(es);
    case Some(cover) => ManualFlat(es, cover);
  }

  lemma NothingLaidOut(es: seq<Element>)
    requires FirstCover(es).None?
    ensures Flat(LayoutManual(BLANK, es).0) == ManualOps(BLANK, es)
  {}

  lemma PagesAreReadable(es: seq<Element>, k: nat)
    requires k < |ManualPages(es)|
    ensures AllReadable(ManualPages(es)[k])
  {
    hide AllReadable, ManualPages, ManualOps, Concat;
    PagesHoldManual(es);
    ManualIsReadable(BLANK, es);
    PageInConcat(ManualPages(es), k);
  }

  /** A page of a file of any pages that can be read: its commands, and then those of the footer. */
  lemma FileShowsPage(pages: seq<seq<Op>>, k: nat)
    requires k < |pages| && AllReadable(pages[k])
    requires |PdfFile.FileText(PdfBuild.Streams(pages))| < PdfRoundTrip.POSITION_LIMIT
    ensures var read := PdfFile.ReadDocument(PdfFile.FileText(PdfBuild.Streams(pages)));
            && read.Some? && |read.value| == |pages|
            && ReadContent(read.value[k]) == Some(AllShown(pages[k]) + FooterShown(k + 1))
  {
    hide PdfFile.FileText, PdfFile.ReadDocument, ReadContent, AllShown, FooterShown, PdfBuild.StreamText;
    hide AllReadable;
    PdfRoundTrip.DocumentReadsBack(PdfBuild.Streams(pages));
    ContentReadsBack(pages[k], k + 1);
  }

  /**
   Page by page, a stream reads as the commands of the page's operators and then the footer with the page's number.
   */
  predicate PagesRead(streams: seq<string>, pages: seq<seq<Op>>) {
    && |streams| == |pages|
    && forall k :: 0 <= k < |pages| ==>
         AllReadable(pages[k]) && ReadContent(streams[k]) == Some(AllShown(pages[k]) + FooterShown(k + 1))
  }

  /** The pages, without their footers, hold the commands of `ops` in order. */
  predicate PagesHold(pages: seq<seq<Op>>, ops: seq<Op>) {
    && AllReadable(ops) && (forall k :: 0 <= k < |pages| ==> AllReadable(pages[k]))
    && Shown(pages) == AllShown(ops)
  }

  /** Followed from its end to its pages, a file reads as the pages of a manual, with all that the manual emits. */
  predicate ReadsAs(file: string, es: seq<Element>) {
    var streams := PdfFile.ReadDocument(file);
    streams.Some? && PagesRead(streams.value, ManualPages(es)) && PagesHold(ManualPages(es), ManualOps(BLANK, es))
  }

  lemma PagesHoldOps(pages: seq<seq<Op>>)
    requires forall k :: 0 <= k < |pages| ==> AllReadable(pages[k])
    ensures PagesHold(pages, Concat(pages))
  {
    hide AllReadable, Concat;
    ShownInOrder(pages);
  }

  lemma FileShowsPages(pages: seq<seq<Op>>)
    requires pages != [] && forall k :: 0 <= k < |pages| ==> AllReadable(pages[k])
    requires |PdfFile.FileText(PdfBuild.Streams(pages))| < PdfRoundTrip.POSITION_LIMIT
    ensures var streams := PdfFile.ReadDocument(PdfFile.FileText(PdfBuild.Streams(pages)));
            streams.Some? && PagesRead(streams.value, pages)
  {
    hide PdfFile.FileText, PdfFile.ReadDocument, ReadContent, AllShown, FooterShown, PdfBuild.Streams, AllReadable;
    FileShowsPage(pages, 0);
    forall k | 0 <= k < |pages|
      ensures var streams := PdfFile.ReadDocument(PdfFile.FileText(PdfBuild.Streams(pages)));
              ReadContent(streams.value[k]) == Some(AllShown(pages[k]) + FooterShown(k + 1))
    {
      FileShowsPage(pages, k);
    }
  }

  /** The file of a manual reads back, whatever the elements of the manual. */
  lemma ManualReadsBack(es: seq<Element>)
    requires |PdfFile.FileText(PdfBuild.Streams(ManualPages(es)))| < PdfRoundTrip.POSITION_LIMIT
    ensures ReadsAs(PdfFile.FileText(PdfBuild.Streams(ManualPages(es))), es)
  {
    hide PdfFile.FileText, PdfFile.ReadDocument, PagesRead, PagesHold;
    hide PdfBuild.Streams, AllReadable, ManualPages, ManualOps;
    forall k | 0 <= k < |ManualPages(es)| ensures AllReadable(ManualPages(es)[k]) {
      PagesAreReadable(es, k);
    }
    FileShowsPages(ManualPages(es));
    PagesHoldOps(ManualPages(es));
    PagesHoldManual(es);
  }

  /** The manual as a PDF file: a writer renders the elements and builds the file, unless rendering raises. */
  method WriteManual(es: seq<Element>) returns (file: Option<string>)
    ensures file.Some? <==> LayoutManual(BLANK, es).1
    ensures file.Some? && |file.value| < PdfRoundTrip.POSITION_LIMIT ==> ReadsAs(file.value, es)
  {
    hide LayoutManual, ReadsAs, ManualOps, PdfFile.FileText, PdfBuild.Streams;
    var writer := new PDFWriter();
    var ok := writer.RenderElements(es);
    if !ok {
      return None;
    }
    var data := writer.Build();
    if |data| < PdfRoundTrip.POSITION_LIMIT {
      ManualReadsBack(es);
    }
    return Some(data);
  }
}
