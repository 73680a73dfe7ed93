/** The stateful layout engine of `PDFWriter`, each method proved against the layout function of PdfLayout. */
module PdfWriter {
  import opened PdfLayout
  import opened PdfWrap
  import opened Results
  import opened Sums
  import PdfBuild
  import PdfFile
  import PdfRoundTrip

  /** An element of the manual, as `render_elements` receives it. */
  datatype Element =
    | CoverElement(cover: Cover)
    | HeadingElement(text: string, level: int)
    | ParagraphElement(text: string)
    | BulletElement(items: seq<string>)
    | TableElement(table: Table)
    | ScreenElement(title: string, routes: seq<string>, summary: string, rows: seq<seq<string>>)

  function BodyPara(text: string): (p: Para)
    ensures p.Valid()
  {
    Para(text, 11.0, Helvetica, None, 0.0, INK, None)
  }

  function BulletPara(item: string): (p: Para)
    ensures p.Valid()
  {
    Para("\U{2022} " + item, 10.7, Helvetica, None, 14.0, INK, None)
  }

  function RoutesPara(routes: seq<string>): (p: Para)
    ensures p.Valid()
  {
    Para("Rotas: " + CommaJoined(routes), 10.0, HelveticaOblique, None, 0.0, ROUTE_INK, None)
  }

  function SummaryPara(summary: string): (p: Para)
    ensures p.Valid()
  {
    Para(summary, 10.7, Helvetica, None, 0.0, INK, None)
  }

  function ScreenTable(rows: seq<seq<string>>): Table {
    Table(["Campo", "Descri\U{E7}\U{E3}o"], rows, Some([0.23, 0.77]), None)
  }

  function CommaJoined(parts: seq<string>): string {
    if parts == [] then "" else if |parts| == 1 then parts[0] else parts[0] + ", " + CommaJoined(parts[1..])
  }

  function Bullets(items: seq<string>): (bs: seq<Block>)
    ensures |bs| == |items| && forall i :: 0 <= i < |bs| ==> bs[i] == ParaBlock(BulletPara(items[i]))
  {
    seq(|items|, i requires 0 <= i < |items| => ParaBlock(BulletPara(items[i])))
  }

  /** The drawing blocks an element stands for. */
  function Blocks(e: Element): (bs: seq<Block>)
    ensures forall i :: 0 <= i < |bs| ==> ValidBlock(bs[i])
  {
    match e
    case CoverElement(_) => []
    case HeadingElement(text, level) => [HeadingBlock(text, level)]
    case ParagraphElement(text) => [ParaBlock(BodyPara(text))]
    case BulletElement(items) => Bullets(items)
    case TableElement(t) => [TableBlock(t)]
    case ScreenElement(title, routes, summary, rows) =>
      [HeadingBlock(title, 2), ParaBlock(RoutesPara(routes)), ParaBlock(SummaryPara(summary)),
       TableBlock(ScreenTable(rows))]
  }

  function AllBlocks(es: seq<Element>): (bs: seq<Block>)
    ensures forall i :: 0 <= i < |bs| ==> ValidBlock(bs[i])
  {
    if es == [] then [] else Blocks(es[0]) + AllBlocks(es[1..])
  }

  /** The first cover among the elements; without one, looking for it raises. */
  function FirstCover(es: seq<Element>): Option<Cover> {
    if es == [] then None else if es[0].CoverElement? then Some(es[0].cover) else FirstCover(es[1..])
  }

  /** What `render_elements` leaves: the cover on a page of its own, then the blocks; and whether it did not raise. */
  function LayoutManual(s: Sheet, es: seq<Element>): (Sheet, bool) {
    match FirstCover(es)
    case None => (s, false)
    case Some(cover) => Layout(PdfLayout.NewPage(LayoutCover(s, cover)), AllBlocks(es))
  }

  /** Every operator `render_elements` emits, in order. */
  function ManualOps(s: Sheet, es: seq<Element>): seq<Op> {
    match FirstCover(es)
    case None => []
    case Some(cover) => CoverOps(cover) + DocumentOps(PdfLayout.NewPage(LayoutCover(s, cover)), AllBlocks(es))
  }

  lemma ParaBlockIs(s: Sheet, p: Para)
    requires p.Valid()
    ensures LayoutBlock(s, ParaBlock(p)) == (LayoutPara(s, p), true)
  {}

  lemma {:induction false} OpsAppend(s: Sheet, a: seq<Block>, b: seq<Block>)
    requires forall i :: 0 <= i < |a| ==> ValidBlock(a[i])
    requires forall i :: 0 <= i < |b| ==> ValidBlock(b[i])
    ensures var (s1, ok) := Layout(s, a);
            DocumentOps(s, a + b) == DocumentOps(s, a) + if ok then DocumentOps(s1, b) else []
    decreases |a|
  {
    hide LayoutBlock, BlockOps, ValidBlock;
    if a == [] {
      assert a + b == b;
    } else {
      assert (a + b)[1..] == a[1..] + b;
      OpsAppend(LayoutBlock(s, a[0]).0, a[1..], b);
    }
  }

  /** The blocks from number `k` on: that one, and the rest unless it raises. */
  lemma BlockByBlock(s: Sheet, bs: seq<Block>, k: nat)
    requires k < |bs| && forall i :: 0 <= i < |bs| ==> ValidBlock(bs[i])
    ensures var (s1, ok) := LayoutBlock(s, bs[k]);
            && Layout(s, bs[k..]) == (if ok then Layout(s1, bs[k + 1..]) else (s1, false))
            && DocumentOps(s, bs[k..]) == BlockOps(s, bs[k]) + if ok then DocumentOps(s1, bs[k + 1..]) else []
  {
    hide LayoutBlock, BlockOps, ValidBlock;
    assert bs[k..][1..] == bs[k + 1..];
  }

  /** The elements from number `k` on: that one, and the rest unless it raises. */
  lemma ElementByElement(s: Sheet, es: seq<Element>, k: nat)
    requires k < |es|
    ensures var (s1, ok) := Layout(s, Blocks(es[k]));
            && Layout(s, AllBlocks(es[k..])) == (if ok then Layout(s1, AllBlocks(es[k + 1..])) else (s1, false))
            && DocumentOps(s, AllBlocks(es[k..]))
               == DocumentOps(s, Blocks(es[k])) + if ok then DocumentOps(s1, AllBlocks(es[k + 1..])) else []
  {
    hide Layout, DocumentOps, Blocks;
    assert es[k..][1..] == es[k + 1..];
    LayoutAppend(s, Blocks(es[k]), AllBlocks(es[k + 1..]));
    OpsAppend(s, Blocks(es[k]), AllBlocks(es[k + 1..]));
  }

  lemma NoBlocks(s: Sheet)
    ensures Layout(s, []) == (s, true) && DocumentOps(s, []) == [] && AllBlocks([]) == []
  {}

  lemma Regrouped(a: seq<Op>, b: seq<Op>, c: seq<Op>)
    ensures a + (b + c) == a + b + c && a + [] == a
  {}

  /**
   A whole manual, from a new writer: the cover stands on a page of its own, in front of the pages that the
   blocks alone would fill. The operators on those are the blocks' in order, and stay between the margins if and
   only if every block up to the first that raises has room on a page; when every block fits an empty page nothing
   raises. No finished page is empty, and the pages read as the lines of the cover and then of the blocks, in order.
   */
  lemma ManualLayout(es: seq<Element>, cover: Cover)
    requires FirstCover(es) == Some(cover)
    ensures var (r, ok), (s, done) := LayoutManual(BLANK, es), Layout(BLANK, AllBlocks(es));
            && r == After([CoverOps(cover)], 1, s) && ok == done
            && Flat(s) == DocumentOps(BLANK, AllBlocks(es)) && NoEmptyPage(r)
            && (AllInPage(Flat(s)) <==> ReachedAreRoomy(AllBlocks(es)))
            && ((forall i :: 0 <= i < |AllBlocks(es)| ==> Fits(AllBlocks(es)[i])) ==> ok && Good(s))
            && Texts(Flat(r)) == CoverTexts(cover) + DocumentTexts(AllBlocks(es))
  {
    hide AllBlocks, Layout, Good, Fits, Texts, CoverOps, CoverTexts, AllInPage, ReachedAreRoomy, DocumentOps;
    var bs := AllBlocks(es);
    var first := PdfLayout.NewPage(LayoutCover(BLANK, cover));
    CoverPage(cover);
    LayoutAfter([CoverOps(cover)], 1, BLANK, bs);
    DocumentReadsInOrder(first, bs);
    DocumentOnPagesIff(BLANK, bs);
    CoverDraws(cover);
    DocumentLeavesNoEmptyPage(first, bs);
    NothingFlat();
    assert [] + DocumentOps(BLANK, bs) == DocumentOps(BLANK, bs);
    if forall i :: 0 <= i < |bs| ==> Fits(bs[i]) {
      BlankIsGood();
      DocumentKeepsMargins(BLANK, bs);
    }
  }

  lemma NothingFlat()
    ensures Flat(BLANK) == []
  {}

  lemma BlankIsGood()
    ensures Good(BLANK)
  {}

  lemma OnePage(ops: seq<Op>)
    requires ops != []
    ensures PdfLayout.NewPage(BLANK.(current := ops, y := 100.0)) == After([ops], 1, BLANK)
    ensures Flat(After([ops], 1, BLANK)) == ops
  {
    hide Concat;
    assert [] + [ops] == [ops] && [ops] + [] == [ops];
    ConcatOne(ops);
    assert ops + [] == ops;
  }

  lemma ConcatOne(ops: seq<Op>)
    ensures Concat([ops]) == ops
  {
    var none: seq<seq<Op>> := [];
    assert [ops][..0] == none && Concat(none) == [];
    assert Concat([ops]) == Concat(none) + ops;
  }

  lemma CoverDraws(cover: Cover)
    ensures CoverOps(cover) != []
  {}

  lemma CoverPage(cover: Cover)
    ensures var s := PdfLayout.NewPage(LayoutCover(BLANK, cover));
            s == After([CoverOps(cover)], 1, BLANK) && Texts(Flat(s)) == CoverTexts(cover)
  {
    hide Texts, CoverTexts, CoverOps, Flat;
    assert [] + CoverOps(cover) == CoverOps(cover);
    CoverDraws(cover);
    OnePage(CoverOps(cover));
    TextsOfCover(cover);
  }

  lemma PageBreakKeepsOps(s: Sheet)
    requires NoEmptyPage(s)
    ensures Flat(PdfLayout.NewPage(s)) == Flat(s) && NoEmptyPage(PdfLayout.NewPage(s))
  {
    if s.current != [] {
      var ps := s.pages + [s.current];
      assert ps[..|ps| - 1] == s.pages;
    }
  }

  class PDFWriter {
    var pages: seq<seq<Op>>
    var currentOps: seq<Op>
    var y: real
    var pageNumber: nat

    ghost var emitted: seq<Op>  // every operator appended so far, whatever page it is on

    function State(): Sheet
      reads this
    {
      Sheet(pages, currentOps, y, pageNumber)
    }

    /** The finished pages and the current one are together exactly what was emitted, and no finished page is empty. */
    ghost predicate Kept()
      reads `pages, `currentOps, `emitted
    {
      Concat(pages) + currentOps == emitted && forall i :: 0 <= i < |pages| ==> pages[i] != []
    }

    constructor ()
      ensures State() == BLANK && emitted == [] && Kept()
    {
      emitted := [];
      pages := [];
      currentOps := [];
      y := TOP;
      pageNumber := 0;
      new;
      NewPage();
    }

    method NewPage()
      requires Kept()
      modifies this
      ensures State() == PdfLayout.NewPage(old(State()))
      ensures Kept() && emitted == old(emitted)
    {
      PageBreakKeepsOps(State());
      if currentOps != [] {
        pages := pages + [currentOps];
      }
      currentOps := [];
      y := TOP;
      pageNumber := pageNumber + 1;
    }

    method Ensure(needed: real)
      requires Kept()
      modifies this
      ensures State() == PdfLayout.Ensure(old(State()), needed)
      ensures Kept() && emitted == old(emitted)
    {
      hide Kept;
      if y - needed < MARGIN_BOTTOM {
        NewPage();
      }
    }

    /** `self.current_ops.append(...)`, for each of `ops` in order. */
    method Append(ops: seq<Op>)
      requires Kept()
      modifies this`currentOps, this`emitted
      ensures currentOps == old(currentOps) + ops && emitted == old(emitted) + ops
      ensures Kept()
    {
      assert Concat(pages) + (currentOps + ops) == Concat(pages) + currentOps + ops;
      currentOps := currentOps + ops;
      emitted := emitted + ops;
    }

    method DrawText(x: real, baseline: real, text: string, font: Font, size: real, color: Color)
      requires Kept()
      modifies this`currentOps, this`emitted
      ensures currentOps == old(currentOps) + TextOps(x, baseline, text, font, size, color)
      ensures emitted == old(emitted) + TextOps(x, baseline, text, font, size, color)
      ensures Kept()
    {
      hide Kept;
      Append([Fill(color)]);
      Append([Text(x, baseline, text, font, size)]);
    }

    /** A run of lines, each one leading below the line before. */
    method DrawLines(x: real, top: real, lines: seq<string>, leading: real, font: Font, size: real, color: Color)
      returns (baseline: real)
      requires Kept()
      modifies this`currentOps, this`emitted
      ensures currentOps == old(currentOps) + LineOps(x, top, lines, leading, font, size, color)
      ensures emitted == old(emitted) + LineOps(x, top, lines, leading, font, size, color)
      ensures baseline == top - Times(|lines|, leading)
      ensures Kept()
    {
      hide Kept, LineOps, TextOps, Times;
      NoLinesYet(x, top, leading, font, size, color);
      assert lines[..0] == [];
      assert currentOps + [] == currentOps;
      baseline := top;
      var k := 0;
      while k < |lines|
        invariant Kept()
        invariant 0 <= k <= |lines|
        invariant baseline == top - Times(k, leading)
        invariant currentOps == old(currentOps) + LineOps(x, top, lines[..k], leading, font, size, color)
        invariant emitted == old(emitted) + LineOps(x, top, lines[..k], leading, font, size, color)
      {
        LineStep(x, top, lines, k, leading, font, size, color);
        OneLess(k + 1, leading);
        DrawText(x, baseline, lines[k], font, size, color);
        baseline := baseline - leading;
        k := k + 1;
      }
      assert lines[..k] == lines;
    }

    method Paragraph(p: Para)
      requires p.Valid()
      requires Kept()
      modifies this
      ensures State() == LayoutPara(old(State()), p)
      ensures emitted == old(emitted) + BlockOps(old(State()), ParaBlock(p))
      ensures Kept()
    {
      hide Kept, EstimateLines, LineOps, Times;
      var lines := EstimateLines(p.text, p.size, p.Width(), p.font);
      Ensure(Times(|lines|, p.Leading()) + 8.0);
      var baseline := DrawLines(MARGIN_X + p.indent, y, lines, p.Leading(), p.font, p.size, p.color);
      y := baseline - 2.0;
    }

    method Heading(text: string, level: int)
      requires Kept()
      modifies this
      ensures State() == LayoutHeading(old(State()), text, level)
      ensures emitted == old(emitted) + BlockOps(old(State()), HeadingBlock(text, level))
      ensures Kept()
    {
      hide Kept;
      var st := StyleOf(level);
      Ensure(st.size + st.spacing + 12.0);
      y := y - 4.0;
      DrawText(MARGIN_X, y, text, HelveticaBold, st.size, st.color);
      y := y - st.spacing;
      Append([Stroke(RULE_COLOR)]);
      Append([Rule(MARGIN_X, y + 4.0, PAGE_WIDTH - MARGIN_X, y + 4.0)]);
      y := y - 6.0;
    }

    method BulletList(items: seq<string>)
      requires Kept()
      modifies this
      ensures Layout(old(State()), Bullets(items)) == (State(), true)
      ensures emitted == old(emitted) + DocumentOps(old(State()), Bullets(items))
      ensures Kept()
    {
      hide Kept, LayoutBlock, BlockOps, Layout, DocumentOps;
      var bs := Bullets(items);
      var k := 0;
      assert bs[0..] == bs;
      while k < |items|
        invariant Kept()
        invariant 0 <= k <= |items|
        invariant Layout(old(State()), bs) == Layout(State(), bs[k..])
        invariant old(emitted) + DocumentOps(old(State()), bs) == emitted + DocumentOps(State(), bs[k..])
      {
        BlockByBlock(State(), bs, k);
        ParaBlockIs(State(), BulletPara(items[k]));
        Regrouped(emitted, BlockOps(State(), bs[k]), DocumentOps(LayoutBlock(State(), bs[k]).0, bs[k + 1..]));
        Paragraph(BulletPara(items[k]));
        k := k + 1;
      }
      NoBlocks(State());
      assert bs[k..] == [];
      assert emitted + [] == emitted;
    }

    method DrawCell(x: real, top: real, w: real, h: real, cell: string, header: bool, first: bool)
      requires Kept()
      modifies this`currentOps, this`emitted
      ensures currentOps == old(currentOps) + CellOps(x, top, w, h, cell, header, first)
      ensures emitted == old(emitted) + CellOps(x, top, w, h, cell, header, first)
      ensures Kept()
    {
      hide Kept, EstimateLines, LineOps, Times;
      Append([Fill(if header || first then HEADER_FILL else WHITE)]);
      Append([Stroke(BORDER)]);
      Append([Box(x, top - h, w, h)]);
      var lines := CellLines(cell, header, w);
      var _ := DrawLines(x + 5.0, top - 14.0, lines, RowSize(header) * 1.35, RowFont(header), RowSize(header),
                         if header then HEADER_INK else INK);
    }

    method DrawRow(cells: seq<string>, header: bool, top: real, h: real, cols: seq<real>)
      requires |cells| <= |cols|
      requires Kept()
      modifies this`currentOps, this`emitted
      ensures currentOps == old(currentOps) + RowOps(cells, header, top, h, cols)
      ensures emitted == old(emitted) + RowOps(cells, header, top, h, cols)
      ensures Kept()
    {
      hide Kept, CellOps;
      var x := MARGIN_X;
      var k := 0;
      while k < |cells|
        invariant Kept()
        invariant 0 <= k <= |cells|
        invariant x == MARGIN_X + Sum(cols[..k])
        invariant currentOps == old(currentOps) + RowOps(cells[..k], header, top, h, cols)
        invariant emitted == old(emitted) + RowOps(cells[..k], header, top, h, cols)
      {
        assert cells[..k + 1][..k] == cells[..k] && cols[..k + 1][..k] == cols[..k];
        DrawCell(x, top, cols[k], h, cells[k], header, k == 0);
        x := x + cols[k];
        k := k + 1;
      }
      assert cells[..k] == cells;
    }

    /** The closure `row_height`: the tallest cell, at least 22 points. */
    method MeasureRow(cells: seq<string>, header: bool, cols: seq<real>) returns (h: real)
      requires |cells| <= |cols|
      ensures h == RowHeight(cells, header, cols)
    {
      hide CellHeight;
      h := 22.0;
      var k := 0;
      while k < |cells|
        invariant 0 <= k <= |cells|
        invariant h == RowHeight(cells[..k], header, cols)
      {
        assert cells[..k + 1][..k] == cells[..k];
        h := Max(h, CellHeight(cells[k], header, cols[k]));
        k := k + 1;
      }
      assert cells[..k] == cells;
    }

    /** All row heights, or None when measuring a row raises. */
    method MeasureRows(t: Table) returns (heights: Option<seq<real>>)
      ensures heights == if t.Drawable() then Some(Heights(t.AllRows(), t.Cols())) else None
    {
      hide EstimateLines, CellHeight, RowHeight;
      var rows, cols := t.AllRows(), t.Cols();
      var hs := [];
      for i := 0 to |rows|
        invariant |hs| == i
        invariant forall j :: 0 <= j < i ==> t.RowMeasurable(rows[j]) && hs[j] == RowHeight(rows[j], j == 0, cols)
      {
        if !t.RowMeasurable(rows[i]) {
          return None;
        }
        var h := MeasureRow(rows[i], i == 0, cols);
        hs := hs + [h];
      }
      assert hs == Heights(rows, cols);
      heights := Some(hs);
    }

    method DrawRows(rows: seq<seq<string>>, heights: seq<real>, cols: seq<real>)
      requires |rows| == |heights|
      requires forall i :: 0 <= i < |rows| ==> |rows[i]| <= |cols|
      requires Kept()
      modifies this
      ensures emitted == old(emitted) + RowsOps(rows, old(y), heights, cols)
      ensures State() == old(State()).(current := old(currentOps) + RowsOps(rows, old(y), heights, cols),
                                       y := old(y) - Sum(heights) - 10.0)
      ensures Kept()
    {
      hide Kept, RowOps;
      var top := y;
      for i := 0 to |rows|
        invariant Kept()
        invariant top == y - Sum(heights[..i])
        invariant currentOps == old(currentOps) + RowsOps(rows[..i], y, heights, cols)
        invariant emitted == old(emitted) + RowsOps(rows[..i], y, heights, cols)
        invariant State() == old(State()).(current := currentOps)
      {
        assert rows[..i + 1][..i] == rows[..i] && heights[..i + 1][..i] == heights[..i];
        DrawRow(rows[i], i == 0, top, heights[i], cols);
        top := top - heights[i];
      }
      assert rows[..|rows|] == rows && heights[..|rows|] == heights;
      y := top - 10.0;
    }

    /** False when measuring a row raises; by then only the title has been drawn. */
    method DrawTable(t: Table) returns (ok: bool)
      requires Kept()
      modifies this
      ensures (State(), ok) == LayoutBlock(old(State()), TableBlock(t))
      ensures emitted == old(emitted) + BlockOps(old(State()), TableBlock(t))
      ensures Kept()
    {
      hide Kept, EstimateLines, CellHeight, RowHeight, RowsOps, LayoutHeading, HeadingOps;
      ghost var title := TitleOps(State(), t);
      if t.Titled() {
        Heading(t.title.value, 3);
      }
      assert State() == LayoutTitle(old(State()), t) && emitted == old(emitted) + title;
      Regrouped(old(emitted), title, if t.Drawable() then TableOps(State(), t) else []);
      hide LayoutTitle, TitleOps;
      var heights := MeasureRows(t);
      ok := heights.Some?;
      if ok {
        Ensure(Sum(heights.value) + 8.0);
        DrawRows(t.AllRows(), heights.value, t.Cols());
      }
    }

    method DrawBlock(b: Block) returns (ok: bool)
      requires ValidBlock(b)
      requires Kept()
      modifies this
      ensures (State(), ok) == LayoutBlock(old(State()), b)
      ensures emitted == old(emitted) + BlockOps(old(State()), b)
      ensures Kept()
    {
      hide Kept;
      ok := true;
      match b {
        case ParaBlock(p) => Paragraph(p);
        case HeadingBlock(text, level) => Heading(text, level);
        case TableBlock(t) => ok := DrawTable(t);
      }
    }

    /** Blocks in order, up to the first that raises. */
    method DrawBlocks(bs: seq<Block>) returns (ok: bool)
      requires forall i :: 0 <= i < |bs| ==> ValidBlock(bs[i])
      requires Kept()
      modifies this
      ensures (State(), ok) == Layout(old(State()), bs)
      ensures emitted == old(emitted) + DocumentOps(old(State()), bs)
      ensures Kept()
    {
      hide Kept, LayoutBlock, ValidBlock, Layout, DocumentOps, BlockOps;
      ok := true;
      var k := 0;
      assert bs[0..] == bs;
      while k < |bs| && ok
        invariant Kept()
        invariant 0 <= k <= |bs|
        invariant Layout(old(State()), bs) == if ok then Layout(State(), bs[k..]) else (State(), ok)
        invariant old(emitted) + DocumentOps(old(State()), bs)
               == emitted + if ok then DocumentOps(State(), bs[k..]) else []
      {
        BlockByBlock(State(), bs, k);
        ghost var (s1, done) := LayoutBlock(State(), bs[k]);
        Regrouped(emitted, BlockOps(State(), bs[k]), if done then DocumentOps(s1, bs[k + 1..]) else []);
        ok := DrawBlock(bs[k]);
        k := k + 1;
      }
      NoBlocks(State());
      assert ok ==> bs[k..] == [];
      assert emitted + [] == emitted;
    }

    /** One element of `render_elements`; false when drawing it raises. */
    method DrawElement(e: Element) returns (ok: bool)
      requires Kept()
      modifies this
      ensures (State(), ok) == Layout(old(State()), Blocks(e))
      ensures emitted == old(emitted) + DocumentOps(old(State()), Blocks(e))
      ensures Kept()
    {
      hide Kept, Layout;
      if e.BulletElement? {
        BulletList(e.items);
        ok := true;
      } else {
        ok := DrawBlocks(Blocks(e));
      }
    }

    method DrawEntries(entries: seq<(string, string)>, top: real)
      requires Kept()
      modifies this`currentOps, this`emitted
      ensures currentOps == old(currentOps) + EntriesOps(entries, top)
      ensures emitted == old(emitted) + EntriesOps(entries, top)
      ensures Kept()
    {
      hide Kept;
      var baseline := top;
      for k := 0 to |entries|
        invariant Kept()
        invariant baseline == top - Times(k, 22.0)
        invariant currentOps == old(currentOps) + EntriesOps(entries[..k], top)
        invariant emitted == old(emitted) + EntriesOps(entries[..k], top)
      {
        assert entries[..k + 1][..k] == entries[..k];
        DrawText(MARGIN_X + 18.0, baseline, entries[k].0 + ": ", HelveticaBold, 10.8, INK);
        DrawText(MARGIN_X + 120.0, baseline, entries[k].1, Helvetica, 10.8, INK);
        baseline := baseline - 22.0;
      }
      assert entries[..|entries|] == entries;
    }

    method DrawCoverHead(cover: Cover)
      requires Kept()
      modifies this`currentOps, this`emitted
      ensures currentOps == old(currentOps) + CoverHead(cover)
      ensures emitted == old(emitted) + CoverHead(cover)
      ensures Kept()
    {
      hide Kept, TextOps;
      Append(COVER_FRONT);
      DrawText(MARGIN_X, PAGE_HEIGHT - 140.0, cover.title, HelveticaBold, 30.0, WHITE);
      DrawText(MARGIN_X, PAGE_HEIGHT - 175.0, cover.subtitle, Helvetica, 14.0, SUBTITLE_INK);
      Append(COVER_PANEL);
      DrawText(MARGIN_X + 18.0, PAGE_HEIGHT - 292.0 + 86.0, "Metadados do documento", HelveticaBold, 12.0, HEADER_INK);
    }

    method DrawCover(cover: Cover)
      requires Kept()
      modifies this
      ensures State() == LayoutCover(old(State()), cover)
      ensures emitted == old(emitted) + CoverOps(cover)
      ensures Kept()
    {
      hide Kept, EntriesOps, CoverHead, TextOps;
      DrawCoverHead(cover);
      DrawEntries(cover.metadata, PAGE_HEIGHT - 292.0);
      y := 120.0;
      Append(COVER_LINE);
      DrawText(MARGIN_X, 60.0, COVER_FOOT, Helvetica, 10.0, ROUTE_INK);
      y := 100.0;
    }

    /** `render_elements`: the cover on its own page, then the element loop; an exception ends it. */
    method RenderElements(es: seq<Element>) returns (ok: bool)
      requires Kept()
      modifies this
      ensures (State(), ok) == LayoutManual(old(State()), es)
      ensures emitted == old(emitted) + ManualOps(old(State()), es)
      ensures Kept()
    {
      hide Kept, Layout, DocumentOps, AllBlocks, CoverOps;
      var cover := FirstCover(es);
      if cover.None? {
        assert emitted + [] == emitted;
        return false;
      }
      Regrouped(emitted, CoverOps(cover.value),
                DocumentOps(PdfLayout.NewPage(LayoutCover(State(), cover.value)), AllBlocks(es)));
      DrawCover(cover.value);
      NewPage();
      ok := DrawElements(es);
    }

    /** The element loop. */
    method DrawElements(es: seq<Element>) returns (ok: bool)
      requires Kept()
      modifies this
      ensures (State(), ok) == Layout(old(State()), AllBlocks(es))
      ensures emitted == old(emitted) + DocumentOps(old(State()), AllBlocks(es))
      ensures Kept()
    {
      hide Kept, Layout, DocumentOps, Blocks, AllBlocks;
      ok := true;
      var k := 0;
      assert es[0..] == es;
      while k < |es| && ok
        invariant Kept()
        invariant 0 <= k <= |es|
        invariant Layout(old(State()), AllBlocks(es))
               == if ok then Layout(State(), AllBlocks(es[k..])) else (State(), ok)
        invariant old(emitted) + DocumentOps(old(State()), AllBlocks(es))
               == emitted + if ok then DocumentOps(State(), AllBlocks(es[k..])) else []
      {
        ElementByElement(State(), es, k);
        ghost var (s1, done) := Layout(State(), Blocks(es[k]));
        Regrouped(emitted, DocumentOps(State(), Blocks(es[k])),
                  if done then DocumentOps(s1, AllBlocks(es[k + 1..])) else []);
        ok := DrawElement(es[k]);
        k := k + 1;
      }
      NoBlocks(State());
      assert ok ==> es[k..] == [];
      assert emitted + [] == emitted;
    }

    /** The finished pages and the page being filled, as a file. */
    method Build() returns (result: string)
      requires Kept()
      ensures Concat(pages + [currentOps]) == emitted
      ensures result == PdfFile.FileText(PdfBuild.Streams(pages + [currentOps]))
      ensures |result| < PdfRoundTrip.POSITION_LIMIT ==>
                PdfFile.ReadDocument(result) == Some(PdfBuild.Streams(pages + [currentOps]))
    {
      hide PdfFile.FileText, PdfBuild.Streams, PdfFile.ReadDocument;
      assert (pages + [currentOps])[..|pages|] == pages;
      result := PdfBuild.BuildFile(pages + [currentOps]);
      if |result| < PdfRoundTrip.POSITION_LIMIT {
        PdfRoundTrip.DocumentReadsBack(PdfBuild.Streams(pages + [currentOps]));
      }
    }
  }
}
