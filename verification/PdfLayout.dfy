/**
 What the layout half of `PDFWriter` puts on its pages, as a function of the state it starts from,
 and the properties of that function over whole documents: margins, reading order, page breaks.
 Lengths are exact reals, in points.
 */
module PdfLayout {
  import opened PdfWrap
  import opened Sums
  import opened Results

  const PAGE_WIDTH := 595.28
  const PAGE_HEIGHT := 841.89
  const MARGIN_X := 54.0
  const MARGIN_TOP := 54.0
  const MARGIN_BOTTOM := 54.0
  const TOP := PAGE_HEIGHT - MARGIN_TOP
  const BODY := TOP - MARGIN_BOTTOM

  datatype Color = Color(r: real, g: real, b: real)

  const INK := Color(0.145, 0.161, 0.184)
  const HEADER_INK := Color(0.082, 0.11, 0.173)
  const BORDER := Color(0.82, 0.84, 0.89)
  const HEADER_FILL := Color(0.96, 0.97, 0.98)
  const WHITE := Color(1.0, 1.0, 1.0)
  const RULE_COLOR := Color(0.808, 0.84, 0.89)
  const ROUTE_INK := Color(0.35, 0.42, 0.53)

  /** One drawing operator line of a content stream. */
  datatype Op =
    | Fill(color: Color)
    | Stroke(color: Color)
    | Text(x: real, y: real, text: string, font: Font, size: real)
    | Rule(x1: real, y1: real, x2: real, y2: real)
    | Box(left: real, bottom: real, width: real, height: real)
    | Raw(line: string)  // written out as it stands; only the cover has these

  /** The writer's fields: finished pages, the page being filled, the pen height, the page counter. */
  datatype Sheet = Sheet(pages: seq<seq<Op>>, current: seq<Op>, y: real, number: nat)

  const BLANK := Sheet([], [], TOP, 1)

  function NewPage(s: Sheet): Sheet {
    Sheet(if s.current != [] then s.pages + [s.current] else s.pages, [], TOP, s.number + 1)
  }

  function Ensure(s: Sheet, needed: real): Sheet {
    if s.y - needed < MARGIN_BOTTOM then NewPage(s) else s
  }

  // ----- what the blocks draw -----

  function TextOps(x: real, y: real, text: string, font: Font, size: real, color: Color): seq<Op> {
    [Fill(color), Text(x, y, text, font, size)]
  }

  /** `n` times `x`, as a length in points. */
  function Times(n: nat, x: real): real {
    n as real * x
  }

  /** Lines below one another: line `k` has its baseline `k` leadings under `y`. */
  function LineOps(x: real, y: real, lines: seq<string>, leading: real, font: Font, size: real, color: Color): seq<Op> {
    if lines == [] then [] else
    var k := |lines| - 1;
    LineOps(x, y, lines[..k], leading, font, size, color)
    + TextOps(x, y - Times(k, leading), lines[k], font, size, color)
  }

  datatype Para = Para(text: string, size: real, font: Font, leading: Option<real>, indent: real, color: Color,
                       width: Option<real>) {
    /** A font size is positive and a line spacing is not negative. */
    predicate Valid() {
      size > 0.0 && (leading.Some? ==> leading.value >= 0.0)
    }

    /** `leading or size * 1.4` */
    function Leading(): (r: real)
      requires Valid()
      ensures r > 0.0
    {
      if leading.Some? && leading.value != 0.0 then leading.value else size * 1.4
    }

    /** `width or (the text width minus the indent)` */
    function Width(): real {
      if width.Some? && width.value != 0.0 then width.value else PAGE_WIDTH - 2.0 * MARGIN_X - indent
    }

    function Lines(): (r: seq<string>)
      requires Valid()
      ensures |r| >= 1
    {
      EstimateLines(text, size, Width(), font)
    }

    function Needed(): real
      requires Valid()
    {
      Times(|Lines()|, Leading()) + 8.0
    }

    function Ops(y: real): seq<Op>
      requires Valid()
    {
      LineOps(MARGIN_X + indent, y, Lines(), Leading(), font, size, color)
    }
  }

  datatype HeadingStyle = HeadingStyle(size: real, color: Color, spacing: real)

  function StyleOf(level: int): HeadingStyle {
    if level == 1 then HeadingStyle(18.0, HEADER_INK, 16.0)
    else if level == 2 then HeadingStyle(14.5, Color(0.125, 0.17, 0.24), 12.0)
    else HeadingStyle(12.5, Color(0.22, 0.29, 0.38), 10.0)
  }

  function HeadingOps(text: string, level: int, y: real): seq<Op> {
    var st := StyleOf(level);
    TextOps(MARGIN_X, y - 4.0, text, HelveticaBold, st.size, st.color)
    + [Stroke(RULE_COLOR), Rule(MARGIN_X, y - st.spacing, PAGE_WIDTH - MARGIN_X, y - st.spacing)]
  }

  // ----- tables -----

  function RowFont(header: bool): Font {
    if header then HelveticaBold else Helvetica
  }

  function RowSize(header: bool): (r: real)
    ensures r > 0.0
  {
    if header then 9.0 else 9.2
  }

  function CellLines(cell: string, header: bool, w: real): (r: seq<string>)
    ensures |r| >= 1
  {
    EstimateLines(cell, RowSize(header), w - 10.0, RowFont(header))
  }

  function CellHeight(cell: string, header: bool, w: real): real {
    Times(|CellLines(cell, header, w)|, RowSize(header) * 1.35) + 6.0
  }

  function RowHeight(cells: seq<string>, header: bool, cols: seq<real>): (h: real)
    requires |cells| <= |cols|
    ensures h >= 22.0
    ensures forall i :: 0 <= i < |cells| ==> h >= CellHeight(cells[i], header, cols[i])
  {
    if cells == [] then 22.0 else
    var k := |cells| - 1;
    Max(RowHeight(cells[..k], header, cols), CellHeight(cells[k], header, cols[k]))
  }

  function CellOps(x: real, y: real, w: real, h: real, cell: string, header: bool, first: bool): seq<Op> {
    [Fill(if header || first then HEADER_FILL else WHITE), Stroke(BORDER), Box(x, y - h, w, h)]
    + LineOps(x + 5.0, y - 14.0, CellLines(cell, header, w), RowSize(header) * 1.35, RowFont(header), RowSize(header),
              if header then HEADER_INK else INK)
  }

  function RowOps(cells: seq<string>, header: bool, y: real, h: real, cols: seq<real>): seq<Op>
    requires |cells| <= |cols|
  {
    if cells == [] then [] else
    var k := |cells| - 1;
    RowOps(cells[..k], header, y, h, cols)
    + CellOps(MARGIN_X + Sum(cols[..k]), y, cols[k], h, cells[k], header, k == 0)
  }

  function Heights(rows: seq<seq<string>>, cols: seq<real>): (hs: seq<real>)
    requires forall i :: 0 <= i < |rows| ==> |rows[i]| <= |cols|
    ensures |hs| == |rows|
    ensures forall i :: 0 <= i < |rows| ==> hs[i] == RowHeight(rows[i], i == 0, cols)
  {
    seq(|rows|, i requires 0 <= i < |rows| => RowHeight(rows[i], i == 0, cols))
  }

  /** Rows below one another from `y`, the first of them the header row. */
  function RowsOps(rows: seq<seq<string>>, y: real, hs: seq<real>, cols: seq<real>): seq<Op>
    requires |rows| <= |hs|
    requires forall i :: 0 <= i < |rows| ==> |rows[i]| <= |cols|
  {
    if rows == [] then [] else
    var k := |rows| - 1;
    RowsOps(rows[..k], y, hs, cols) + RowOps(rows[k], k == 0, y - Sum(hs[..k]), hs[k], cols)
  }

  datatype Table = Table(headers: seq<string>, rows: seq<seq<string>>, widths: Option<seq<real>>,
                         title: Option<string>) {
    function Ratios(): seq<real> {
      match widths
      case Some(ws) => ws
      case None => seq(|headers|, i requires 0 <= i < |headers| => 1.0 / |headers| as real)
    }

    function Cols(): (r: seq<real>)
      ensures |r| == |Ratios()|
    {
      var ratios := Ratios();
      seq(|ratios|, i requires 0 <= i < |ratios| => (PAGE_WIDTH - 2.0 * MARGIN_X) * ratios[i])
    }

    function AllRows(): seq<seq<string>> {
      [headers] + rows
    }

    /** Measuring a row raises when it has no cell, or more cells than there are fonts or columns. */
    predicate RowMeasurable(row: seq<string>) {
      row != [] && |row| <= |headers| && |row| <= |Cols()|
    }

    predicate Drawable() {
      forall i :: 0 <= i < |AllRows()| ==> RowMeasurable(AllRows()[i])
    }

    predicate Titled() {
      title.Some? && title.value != ""
    }

    function TotalHeight(): real
      requires Drawable()
    {
      Sum(Heights(AllRows(), Cols()))
    }
  }

  // ----- the cover -----

  datatype Cover = Cover(title: string, subtitle: string, metadata: seq<(string, string)>)

  const SUBTITLE_INK := Color(0.90, 0.93, 0.97)

  function EntryOps(entry: (string, string), y: real): seq<Op> {
    TextOps(MARGIN_X + 18.0, y, entry.0 + ": ", HelveticaBold, 10.8, INK)
    + TextOps(MARGIN_X + 120.0, y, entry.1, Helvetica, 10.8, INK)
  }

  /** The metadata entries, 22 points apart. */
  function EntriesOps(entries: seq<(string, string)>, y: real): seq<Op> {
    if entries == [] then [] else
    var k := |entries| - 1;
    EntriesOps(entries[..k], y) + EntryOps(entries[k], y - Times(k, 22.0))
  }

  const COVER_FRONT: seq<Op> := [Raw("0.086 0.133 0.208 rg"), Raw("0 0 595.28 841.89 re f"), Raw("1 1 1 rg")]

  const COVER_PANEL: seq<Op> :=
    [Raw("0.965 0.972 0.98 rg"), Raw("54.00 581.89 487.28 146 re f"),
     Raw("0.80 0.84 0.90 RG"), Raw("54.00 581.89 487.28 146 re S")]

  const COVER_LINE: seq<Op> := [Raw("0.76 0.82 0.9 rg"), Raw("54.00 86.00 487.28 1.5 re f"),
                                Raw("0.145 0.161 0.184 rg")]

  const COVER_FOOT := "t2c_data \U{2022} manual corporativo oficial"

  /** The cover up to its metadata. */
  function CoverHead(c: Cover): seq<Op> {
    COVER_FRONT
    + TextOps(MARGIN_X, PAGE_HEIGHT - 140.0, c.title, HelveticaBold, 30.0, WHITE)
    + TextOps(MARGIN_X, PAGE_HEIGHT - 175.0, c.subtitle, Helvetica, 14.0, SUBTITLE_INK)
    + COVER_PANEL
    + TextOps(MARGIN_X + 18.0, PAGE_HEIGHT - 206.0, "Metadados do documento", HelveticaBold, 12.0, HEADER_INK)
  }

  function CoverOps(c: Cover): seq<Op> {
    CoverHead(c) + EntriesOps(c.metadata, PAGE_HEIGHT - 292.0) + COVER_LINE
    + TextOps(MARGIN_X, 60.0, COVER_FOOT, Helvetica, 10.0, ROUTE_INK)
  }

  function LayoutCover(s: Sheet, c: Cover): Sheet {
    s.(current := s.current + CoverOps(c), y := 100.0)
  }

  // ----- laying out a document -----

  datatype Block =
    | ParaBlock(para: Para)
    | HeadingBlock(text: string, level: int)
    | TableBlock(table: Table)

  function LayoutPara(s: Sheet, p: Para): Sheet
    requires p.Valid()
  {
    var s1 := Ensure(s, p.Needed());
    s1.(current := s1.current + p.Ops(s1.y), y := s1.y - Times(|p.Lines()|, p.Leading()) - 2.0)
  }

  function LayoutHeading(s: Sheet, text: string, level: int): Sheet {
    var st := StyleOf(level);
    var s1 := Ensure(s, st.size + st.spacing + 12.0);
    s1.(current := s1.current + HeadingOps(text, level, s1.y), y := s1.y - 4.0 - st.spacing - 6.0)
  }

  /** The title is drawn before any row is measured, so a table that raises still leaves its title. */
  function LayoutTitle(s: Sheet, t: Table): Sheet {
    if t.Titled() then LayoutHeading(s, t.title.value, 3) else s
  }

  function LayoutRows(s: Sheet, t: Table): Sheet
    requires t.Drawable()
  {
    var s1 := Ensure(s, t.TotalHeight() + 8.0);
    s1.(current := s1.current + RowsOps(t.AllRows(), s1.y, Heights(t.AllRows(), t.Cols()), t.Cols()),
        y := s1.y - t.TotalHeight() - 10.0)
  }

  predicate ValidBlock(b: Block) {
    b.ParaBlock? ==> b.para.Valid()
  }

  /** The state after a block, and whether it was drawn without an exception. */
  function LayoutBlock(s: Sheet, b: Block): (Sheet, bool)
    requires ValidBlock(b)
  {
    match b
    case ParaBlock(p) => (LayoutPara(s, p), true)
    case HeadingBlock(text, level) => (LayoutHeading(s, text, level), true)
    case TableBlock(t) =>
      if t.Drawable() then (LayoutRows(LayoutTitle(s, t), t), true) else (LayoutTitle(s, t), false)
  }

  /** Blocks in order, up to the first that raises. */
  function Layout(s: Sheet, blocks: seq<Block>): (Sheet, bool)
    requires forall i :: 0 <= i < |blocks| ==> ValidBlock(blocks[i])
    decreases |blocks|
  {
    if blocks == [] then (s, true) else
    var (s1, ok) := LayoutBlock(s, blocks[0]);
    if ok then Layout(s1, blocks[1..]) else (s1, false)
  }

  lemma {:induction false} LayoutAppend(s: Sheet, a: seq<Block>, b: seq<Block>)
    requires forall i :: 0 <= i < |a| ==> ValidBlock(a[i])
    requires forall i :: 0 <= i < |b| ==> ValidBlock(b[i])
    ensures var (s1, ok) := Layout(s, a);
            Layout(s, a + b) == if ok then Layout(s1, b) else (s1, false)
    decreases |a|
  {
    if a == [] {
      assert a + b == b;
    } else {
      assert (a + b)[1..] == a[1..] + b;
      LayoutAppend(LayoutBlock(s, a[0]).0, a[1..], b);
    }
  }

  // ----- margins -----

  /** Whether a baseline, rule or box lies between heights `lo` and `hi`. */
  predicate OpBetween(op: Op, lo: real, hi: real) {
    match op
    case Text(_, y, _, _, _) => lo <= y <= hi
    case Rule(_, y1, _, y2) => lo <= y1 <= hi && lo <= y2 <= hi
    case Box(_, y, _, h) => lo <= y && y + h <= hi
    case _ => true
  }

  predicate Between(ops: seq<Op>, lo: real, hi: real) {
    forall i :: 0 <= i < |ops| ==> OpBetween(ops[i], lo, hi)
  }

  predicate AllInPage(ops: seq<Op>) {
    Between(ops, MARGIN_BOTTOM, TOP)
  }

  lemma BetweenAppend(a: seq<Op>, b: seq<Op>, lo: real, hi: real)
    ensures Between(a + b, lo, hi) <==> Between(a, lo, hi) && Between(b, lo, hi)
  {
    if Between(a + b, lo, hi) {
      assert forall i :: 0 <= i < |a| ==> a[i] == (a + b)[i];
      assert forall i :: 0 <= i < |b| ==> b[i] == (a + b)[|a| + i];
    }
  }

  lemma BetweenWider(ops: seq<Op>, lo: real, hi: real, lo1: real, hi1: real)
    requires Between(ops, lo, hi) && lo1 <= lo && hi <= hi1
    ensures Between(ops, lo1, hi1)
  {}

  /** The state between two calls. */
  predicate Good(s: Sheet) {
    && MARGIN_BOTTOM - 2.0 <= s.y <= TOP
    && (s.current == [] ==> s.y == TOP)
    && (forall i :: 0 <= i < |s.pages| ==> s.pages[i] != [] && AllInPage(s.pages[i]))
    && AllInPage(s.current)
    && s.number == |s.pages| + 1
  }

  lemma OneLess(n: nat, x: real)
    requires n > 0
    ensures Times(n - 1, x) == Times(n, x) - x
    ensures x >= 0.0 ==> Times(n - 1, x) >= 0.0
  {}

  lemma {:induction false} LinesBetween(x: real, y: real, lines: seq<string>, leading: real, font: Font, size: real,
                                        color: Color)
    requires leading > 0.0 && lines != []
    ensures Between(LineOps(x, y, lines, leading, font, size, color), y - Times(|lines| - 1, leading), y)
  {
    hide Times;
    var k := |lines| - 1;
    var drop := Times(k, leading);
    OneLess(|lines|, leading);
    var above := LineOps(x, y, lines[..k], leading, font, size, color);
    if k > 0 {
      LinesBetween(x, y, lines[..k], leading, font, size, color);
      OneLess(k, leading);
      BetweenWider(above, y - Times(k - 1, leading), y, y - drop, y);
    }
    BetweenAppend(above, TextOps(x, y - drop, lines[k], font, size, color), y - drop, y);
  }

  lemma NoLinesYet(x: real, y: real, leading: real, font: Font, size: real, color: Color)
    ensures LineOps(x, y, [], leading, font, size, color) == [] && Times(0, leading) == 0.0
  {}

  lemma LineStep(x: real, y: real, lines: seq<string>, k: nat, leading: real, font: Font, size: real, color: Color)
    requires k < |lines|
    ensures LineOps(x, y, lines[..k + 1], leading, font, size, color)
         == LineOps(x, y, lines[..k], leading, font, size, color)
            + TextOps(x, y - Times(k, leading), lines[k], font, size, color)
  {
    hide TextOps, Times;
    assert lines[..k + 1][..k] == lines[..k];
  }

  /** The lowest line is really drawn at the lower bound. */
  lemma LastLine(x: real, y: real, lines: seq<string>, leading: real, font: Font, size: real, color: Color)
    requires lines != []
    ensures var ops := LineOps(x, y, lines, leading, font, size, color);
            |ops| > 0 && ops[|ops| - 1] == Text(x, y - Times(|lines| - 1, leading), lines[|lines| - 1], font, size)
  {}

  /** Every line of a cell has its baseline inside the cell's box. */
  lemma CellInsideRow(x: real, y: real, w: real, h: real, cell: string, header: bool, first: bool)
    requires h >= 22.0 && h >= CellHeight(cell, header, w)
    ensures Between(CellOps(x, y, w, h, cell, header, first), y - h, y)
  {
    hide EstimateLines, LineOps, Times;
    var lines, leading := CellLines(cell, header, w), RowSize(header) * 1.35;
    LinesBetween(x + 5.0, y - 14.0, lines, leading, RowFont(header), RowSize(header),
                 if header then HEADER_INK else INK);
    OneLess(|lines|, leading);
    BetweenWider(LineOps(x + 5.0, y - 14.0, lines, leading, RowFont(header), RowSize(header),
                         if header then HEADER_INK else INK),
                 y - 14.0 - Times(|lines| - 1, leading), y - 14.0, y - h, y);
  }

  lemma {:induction false} RowBetween(cells: seq<string>, header: bool, y: real, h: real, cols: seq<real>)
    requires |cells| <= |cols|
    requires h >= RowHeight(cells, header, cols)
    ensures Between(RowOps(cells, header, y, h, cols), y - h, y)
  {
    hide EstimateLines, CellHeight, CellOps;
    if cells != [] {
      var k := |cells| - 1;
      RowBetween(cells[..k], header, y, h, cols);
      CellInsideRow(MARGIN_X + Sum(cols[..k]), y, cols[k], h, cells[k], header, k == 0);
      BetweenAppend(RowOps(cells[..k], header, y, h, cols),
                    CellOps(MARGIN_X + Sum(cols[..k]), y, cols[k], h, cells[k], header, k == 0), y - h, y);
    }
  }

  lemma StackBetween(above: seq<Op>, below: seq<Op>, y: real, y1: real, y2: real)
    requires y2 <= y1 <= y
    requires Between(above, y1, y) && Between(below, y2, y1)
    ensures Between(above + below, y2, y)
  {
    BetweenWider(above, y1, y, y2, y);
    BetweenWider(below, y2, y1, y2, y);
    BetweenAppend(above, below, y2, y);
  }

  lemma {:induction false} RowsBetween(rows: seq<seq<string>>, y: real, hs: seq<real>, cols: seq<real>)
    requires |rows| == |hs|
    requires forall i :: 0 <= i < |rows| ==> |rows[i]| <= |cols| && hs[i] == RowHeight(rows[i], i == 0, cols)
    ensures Between(RowsOps(rows, y, hs, cols), y - Sum(hs), y)
    ensures Sum(hs) >= 0.0
    ensures rows != [] ==> Sum(hs) >= 22.0
  {
    hide EstimateLines, CellHeight, RowHeight, RowOps, Between;
    if rows == [] {
      NothingBetween(y);
    } else {
      var k := |rows| - 1;
      RowsBetween(rows[..k], y, hs[..k], cols);
      RowsOpsPrefix(rows[..k], y, hs, k, cols);
      OneMoreRow(rows, y, hs, cols);
    }
  }

  lemma OneMoreRow(rows: seq<seq<string>>, y: real, hs: seq<real>, cols: seq<real>)
    requires rows != [] && |rows| == |hs|
    requires forall i :: 0 <= i < |rows| ==> |rows[i]| <= |cols|
    requires var k := |rows| - 1;
             && hs[k] == RowHeight(rows[k], k == 0, cols) && Sum(hs[..k]) >= 0.0
             && Between(RowsOps(rows[..k], y, hs, cols), y - Sum(hs[..k]), y)
    ensures Between(RowsOps(rows, y, hs, cols), y - Sum(hs), y)
    ensures Sum(hs) >= 22.0
  {
    hide EstimateLines, CellHeight, RowHeight, RowOps, Between;
    var k := |rows| - 1;
    var y1 := y - Sum(hs[..k]);
    RowBetween(rows[k], k == 0, y1, hs[k], cols);
    StackBetween(RowsOps(rows[..k], y, hs, cols), RowOps(rows[k], k == 0, y1, hs[k], cols), y, y1, y1 - hs[k]);
  }

  lemma NothingBetween(y: real)
    ensures Between([], y, y)
  {}

  /** Heights beyond the rows drawn do not matter. */
  lemma {:induction false} RowsOpsPrefix(rows: seq<seq<string>>, y: real, hs: seq<real>, k: nat, cols: seq<real>)
    requires |rows| <= k <= |hs|
    requires forall i :: 0 <= i < |rows| ==> |rows[i]| <= |cols|
    ensures RowsOps(rows, y, hs[..k], cols) == RowsOps(rows, y, hs, cols)
  {
    hide RowOps, Sum;
    if rows != [] {
      var n := |rows| - 1;
      RowsOpsPrefix(rows[..n], y, hs, k, cols);
      assert hs[..k][..n] == hs[..n] && hs[..k][n] == hs[n];
    }
  }

  lemma TableBetween(t: Table, y: real)
    requires t.Drawable()
    ensures Between(RowsOps(t.AllRows(), y, Heights(t.AllRows(), t.Cols()), t.Cols()), y - t.TotalHeight(), y)
    ensures t.TotalHeight() >= 22.0
  {
    hide EstimateLines, RowHeight, RowOps, Between;
    RowsBetween(t.AllRows(), y, Heights(t.AllRows(), t.Cols()), t.Cols());
  }

  predicate Fits(b: Block)
    requires ValidBlock(b)
  {
    match b
    case ParaBlock(p) => p.Needed() <= BODY
    case HeadingBlock(_, _) => true
    case TableBlock(t) => t.Drawable() && t.TotalHeight() + 8.0 <= BODY
  }

  lemma EnsureGood(s: Sheet, needed: real)
    requires Good(s) && 0.0 <= needed <= BODY
    ensures var s1 := Ensure(s, needed);
            Good(s1) && s1.y - needed >= MARGIN_BOTTOM
  {}

  lemma HeadingGood(s: Sheet, text: string, level: int)
    requires Good(s)
    ensures Good(LayoutHeading(s, text, level))
  {
    var st := StyleOf(level);
    EnsureGood(s, st.size + st.spacing + 12.0);
    var s1 := Ensure(s, st.size + st.spacing + 12.0);
    BetweenAppend(s1.current, HeadingOps(text, level, s1.y), MARGIN_BOTTOM, TOP);
  }

  lemma ParaGood(s: Sheet, p: Para)
    requires Good(s) && p.Valid() && p.Needed() <= BODY
    ensures Good(LayoutPara(s, p))
  {
    hide EstimateLines, LineOps, Times;
    var n, leading := |p.Lines()|, p.Leading();
    OneLess(n, leading);
    EnsureGood(s, p.Needed());
    var s1 := Ensure(s, p.Needed());
    var low := s1.y - Times(n - 1, leading);
    LinesBetween(MARGIN_X + p.indent, s1.y, p.Lines(), leading, p.font, p.size, p.color);
    LastLine(MARGIN_X + p.indent, s1.y, p.Lines(), leading, p.font, p.size, p.color);
    BetweenWider(p.Ops(s1.y), low, s1.y, MARGIN_BOTTOM, TOP);
    BetweenAppend(s1.current, p.Ops(s1.y), MARGIN_BOTTOM, TOP);
  }

  lemma RowsGood(s: Sheet, t: Table)
    requires Good(s) && t.Drawable() && t.TotalHeight() + 8.0 <= BODY
    ensures Good(LayoutRows(s, t))
  {
    hide EstimateLines, CellHeight, RowHeight, RowsOps, Between, OpBetween;
    var s1 := Ensure(s, t.TotalHeight() + 8.0);
    var ops := RowsOps(t.AllRows(), s1.y, Heights(t.AllRows(), t.Cols()), t.Cols());
    TableBetween(t, s1.y);
    EnsureGood(s, t.TotalHeight() + 8.0);
    TableDraws(t, s1.y);
    BetweenWider(ops, s1.y - t.TotalHeight(), s1.y, MARGIN_BOTTOM, TOP);
    BetweenAppend(s1.current, ops, MARGIN_BOTTOM, TOP);
  }

  lemma BlockGood(s: Sheet, b: Block)
    requires Good(s) && ValidBlock(b) && Fits(b)
    ensures LayoutBlock(s, b).1 && Good(LayoutBlock(s, b).0)
  {
    match b
    case ParaBlock(p) => ParaGood(s, p);
    case HeadingBlock(text, level) => HeadingGood(s, text, level);
    case TableBlock(t) =>
      if t.Titled() {
        HeadingGood(s, t.title.value, 3);
      }
      RowsGood(LayoutTitle(s, t), t);
  }

  lemma TableDraws(t: Table, y: real)
    requires t.Drawable()
    ensures RowsOps(t.AllRows(), y, Heights(t.AllRows(), t.Cols()), t.Cols()) != []
  {
    hide EstimateLines, RowHeight;
    var rows := t.AllRows();
    var k := |rows| - 1;
    assert t.RowMeasurable(rows[k]);
  }

  /**
   Over any document whose blocks each fit an empty page, nothing is drawn outside the vertical margins,
   the pen never sinks more than two points into the bottom margin, no finished page is empty, and the
   page counter counts the pages.
   */
  lemma {:induction false} DocumentKeepsMargins(s: Sheet, blocks: seq<Block>)
    requires Good(s)
    requires forall i :: 0 <= i < |blocks| ==> ValidBlock(blocks[i]) && Fits(blocks[i])
    ensures Layout(s, blocks).1 && Good(Layout(s, blocks).0)
    decreases |blocks|
  {
    if blocks != [] {
      BlockGood(s, blocks[0]);
      DocumentKeepsMargins(LayoutBlock(s, blocks[0]).0, blocks[1..]);
    }
  }

  /** A page break leaves the pen at the top, or below it with the height asked for still above the bottom margin. */
  lemma EnsureRoom(s: Sheet, needed: real)
    requires s.y <= TOP
    ensures var y := Ensure(s, needed).y;
            y <= TOP && (y == TOP || y - needed >= MARGIN_BOTTOM)
  {}

  /** Exactly when the lines of a paragraph stay above the bottom margin, whatever is already on the page. */
  lemma ParagraphOnPageIff(s: Sheet, p: Para)
    requires s.y <= TOP && p.Valid()
    ensures AllInPage(p.Ops(Ensure(s, p.Needed()).y)) <==> Times(|p.Lines()| - 1, p.Leading()) <= BODY
  {
    hide EstimateLines, LineOps, Times;
    var n, leading, y := |p.Lines()|, p.Leading(), Ensure(s, p.Needed()).y;
    var x, ops := MARGIN_X + p.indent, p.Ops(y);
    EnsureRoom(s, p.Needed());
    OneLess(n, leading);
    LinesBetween(x, y, p.Lines(), leading, p.font, p.size, p.color);
    LastLine(x, y, p.Lines(), leading, p.font, p.size, p.color);
    if Times(n - 1, leading) <= BODY {
      BetweenWider(ops, y - Times(n - 1, leading), y, MARGIN_BOTTOM, TOP);
    } else {
      assert !OpBetween(ops[|ops| - 1], MARGIN_BOTTOM, TOP);
    }
  }

  /** Exactly when the rows of a table stay above the bottom margin: a table is never split. */
  lemma TableOnPageIff(s: Sheet, t: Table)
    requires s.y <= TOP && t.Drawable()
    ensures var y := Ensure(s, t.TotalHeight() + 8.0).y;
            AllInPage(RowsOps(t.AllRows(), y, Heights(t.AllRows(), t.Cols()), t.Cols())) <==> t.TotalHeight() <= BODY
  {
    hide EstimateLines, CellHeight, RowHeight, RowOps, OpBetween, Between;
    var y := Ensure(s, t.TotalHeight() + 8.0).y;
    var rows, hs, cols := t.AllRows(), Heights(t.AllRows(), t.Cols()), t.Cols();
    var ops := RowsOps(rows, y, hs, cols);
    EnsureRoom(s, t.TotalHeight() + 8.0);
    TableBetween(t, y);
    if t.TotalHeight() <= BODY {
      BetweenWider(ops, y - t.TotalHeight(), y, MARGIN_BOTTOM, TOP);
    } else {
      var k := |rows| - 1;
      assert t.RowMeasurable(rows[k]);
      var y1 := y - Sum(hs[..k]);
      assert hs[..|hs| - 1] == hs[..k];
      LastBoxOut(rows[k], k == 0, y1, hs[k], cols);
      BetweenAppend(RowsOps(rows[..k], y, hs, cols), RowOps(rows[k], k == 0, y1, hs[k], cols), MARGIN_BOTTOM, TOP);
    }
  }

  lemma LastBoxOut(cells: seq<string>, header: bool, y: real, h: real, cols: seq<real>)
    requires 0 < |cells| <= |cols|
    requires y - h < MARGIN_BOTTOM
    ensures !AllInPage(RowOps(cells, header, y, h, cols))
  {
    var k := |cells| - 1;
    var before := RowOps(cells[..k], header, y, h, cols);
    var cell := CellOps(MARGIN_X + Sum(cols[..k]), y, cols[k], h, cells[k], header, k == 0);
    assert cell[2] == Box(MARGIN_X + Sum(cols[..k]), y - h, cols[k], h);
    BetweenAppend(before, cell, MARGIN_BOTTOM, TOP);
  }

  // ----- reading order -----

  function Concat<T>(parts: seq<seq<T>>): seq<T> {
    if parts == [] then [] else Concat(parts[..|parts| - 1]) + parts[|parts| - 1]
  }

  /** Every operator emitted so far, in order. */
  function Flat(s: Sheet): seq<Op> {
    Concat(s.pages) + s.current
  }

  function Texts(ops: seq<Op>): seq<string> {
    if ops == [] then [] else
    var k := |ops| - 1;
    Texts(ops[..k]) + if ops[k].Text? then [ops[k].text] else []
  }

  function RowTexts(cells: seq<string>, header: bool, cols: seq<real>): seq<string>
    requires |cells| <= |cols|
  {
    if cells == [] then [] else
    var k := |cells| - 1;
    RowTexts(cells[..k], header, cols) + CellLines(cells[k], header, cols[k])
  }

  function RowsTexts(rows: seq<seq<string>>, cols: seq<real>): seq<string>
    requires forall i :: 0 <= i < |rows| ==> |rows[i]| <= |cols|
  {
    if rows == [] then [] else
    var k := |rows| - 1;
    RowsTexts(rows[..k], cols) + RowTexts(rows[k], k == 0, cols)
  }

  function TitleTexts(t: Table): seq<string> {
    if t.Titled() then [t.title.value] else []
  }

  /** The lines of text a block contributes, independent of where on which page it lands. */
  function BlockTexts(b: Block): seq<string>
    requires ValidBlock(b)
  {
    match b
    case ParaBlock(p) => p.Lines()
    case HeadingBlock(text, _) => [text]
    case TableBlock(t) =>
      TitleTexts(t) + if t.Drawable() then RowsTexts(t.AllRows(), t.Cols()) else []
  }

  /** The lines of a document, up to and including the title of a table that raises. */
  function DocumentTexts(blocks: seq<Block>): seq<string>
    requires forall i :: 0 <= i < |blocks| ==> ValidBlock(blocks[i])
  {
    if blocks == [] then []
    else if blocks[0].TableBlock? && !blocks[0].table.Drawable() then BlockTexts(blocks[0])
    else BlockTexts(blocks[0]) + DocumentTexts(blocks[1..])
  }

  lemma NoTexts()
    ensures Texts([]) == []
  {}

  lemma {:induction false} TextsAppend(a: seq<Op>, b: seq<Op>)
    ensures Texts(a + b) == Texts(a) + Texts(b)
  {
    if b == [] {
      assert a + b == a;
    } else {
      var k := |b| - 1;
      TextsAppend(a, b[..k]);
      assert (a + b)[..|a + b| - 1] == a + b[..k];
    }
  }

  lemma {:induction false} TextsOfLines(x: real, y: real, lines: seq<string>, leading: real, font: Font, size: real,
                                        color: Color)
    ensures Texts(LineOps(x, y, lines, leading, font, size, color)) == lines
  {
    hide Times;
    if lines != [] {
      var k := |lines| - 1;
      TextsOfLines(x, y, lines[..k], leading, font, size, color);
      TextsOfOne(x, y - Times(k, leading), lines[k], font, size, color);
      TextsAppend(LineOps(x, y, lines[..k], leading, font, size, color),
                  TextOps(x, y - Times(k, leading), lines[k], font, size, color));
      assert lines == lines[..k] + [lines[k]];
    }
  }

  lemma TextsOfOne(x: real, y: real, text: string, font: Font, size: real, color: Color)
    ensures Texts(TextOps(x, y, text, font, size, color)) == [text]
  {
    var ops := TextOps(x, y, text, font, size, color);
    assert ops[..1] == [Fill(color)] && ops[..1][..0] == [];
    assert Texts(ops[..1]) == [];
  }

  lemma TextsOfCell(x: real, y: real, w: real, h: real, cell: string, header: bool, first: bool)
    ensures Texts(CellOps(x, y, w, h, cell, header, first)) == CellLines(cell, header, w)
  {
    hide EstimateLines, Times;
    var color := if header then HEADER_INK else INK;
    var box := [Fill(if header || first then HEADER_FILL else WHITE), Stroke(BORDER), Box(x, y - h, w, h)];
    TextsOfLines(x + 5.0, y - 14.0, CellLines(cell, header, w), RowSize(header) * 1.35, RowFont(header),
                 RowSize(header), color);
    TextsAppend(box, LineOps(x + 5.0, y - 14.0, CellLines(cell, header, w), RowSize(header) * 1.35, RowFont(header),
                             RowSize(header), color));
    assert box[..2] == [box[0], box[1]] && box[..2][..1] == [box[0]] && [box[0]][..0] == [];
    assert Texts([box[0]]) == [];
    assert Texts(box[..2]) == [];
  }

  lemma {:induction false} TextsOfRow(cells: seq<string>, header: bool, y: real, h: real, cols: seq<real>)
    requires |cells| <= |cols|
    ensures Texts(RowOps(cells, header, y, h, cols)) == RowTexts(cells, header, cols)
  {
    hide EstimateLines, CellOps, Texts;
    NoTexts();
    if cells != [] {
      var k := |cells| - 1;
      TextsOfRow(cells[..k], header, y, h, cols);
      var x := MARGIN_X + Sum(cols[..k]);
      TextsOfCell(x, y, cols[k], h, cells[k], header, k == 0);
      TextsAppend(RowOps(cells[..k], header, y, h, cols), CellOps(x, y, cols[k], h, cells[k], header, k == 0));
    }
  }

  lemma {:induction false} TextsOfRows(rows: seq<seq<string>>, y: real, hs: seq<real>, cols: seq<real>)
    requires |rows| <= |hs|
    requires forall i :: 0 <= i < |rows| ==> |rows[i]| <= |cols|
    ensures Texts(RowsOps(rows, y, hs, cols)) == RowsTexts(rows, cols)
  {
    hide EstimateLines, RowOps, RowTexts, Texts;
    NoTexts();
    if rows != [] {
      var k := |rows| - 1;
      TextsOfRows(rows[..k], y, hs, cols);
      TextsOfRow(rows[k], k == 0, y - Sum(hs[..k]), hs[k], cols);
      TextsAppend(RowsOps(rows[..k], y, hs, cols), RowOps(rows[k], k == 0, y - Sum(hs[..k]), hs[k], cols));
    }
  }

  /** A page break moves operators to a finished page and loses or reorders none. */
  lemma EnsureKeepsOps(s: Sheet, needed: real)
    ensures Flat(Ensure(s, needed)) == Flat(s)
  {
    if s.current != [] {
      var ps := s.pages + [s.current];
      assert ps[..|ps| - 1] == s.pages;
    }
  }

  lemma TextsOfHeading(text: string, level: int, y: real)
    ensures Texts(HeadingOps(text, level, y)) == [text]
  {
    var st := StyleOf(level);
    var head := TextOps(MARGIN_X, y - 4.0, text, HelveticaBold, st.size, st.color);
    var rule := [Stroke(RULE_COLOR), Rule(MARGIN_X, y - st.spacing, PAGE_WIDTH - MARGIN_X, y - st.spacing)];
    TextsOfOne(MARGIN_X, y - 4.0, text, HelveticaBold, st.size, st.color);
    TextsAppend(head, rule);
    assert rule[..1] == [rule[0]] && rule[..1][..0] == [];
    assert Texts(rule[..1]) == [];
  }

  function EntriesTexts(entries: seq<(string, string)>): seq<string> {
    if entries == [] then [] else
    var k := |entries| - 1;
    EntriesTexts(entries[..k]) + [entries[k].0 + ": ", entries[k].1]
  }

  /** The lines of the cover, in the order they are drawn. */
  function CoverTexts(c: Cover): seq<string> {
    [c.title, c.subtitle, "Metadados do documento"] + EntriesTexts(c.metadata) + [COVER_FOOT]
  }

  lemma {:induction false} TextsOfRaw(ops: seq<Op>)
    requires forall i :: 0 <= i < |ops| ==> !ops[i].Text?
    ensures Texts(ops) == []
  {
    if ops != [] {
      TextsOfRaw(ops[..|ops| - 1]);
    }
  }

  lemma {:induction false} TextsOfEntries(entries: seq<(string, string)>, y: real)
    ensures Texts(EntriesOps(entries, y)) == EntriesTexts(entries)
  {
    hide Times, Texts, TextOps;
    NoTexts();
    if entries != [] {
      var k := |entries| - 1;
      var at := y - Times(k, 22.0);
      TextsOfEntries(entries[..k], y);
      TextsAppend(EntriesOps(entries[..k], y), EntryOps(entries[k], at));
      TextsAppend(TextOps(MARGIN_X + 18.0, at, entries[k].0 + ": ", HelveticaBold, 10.8, INK),
                  TextOps(MARGIN_X + 120.0, at, entries[k].1, Helvetica, 10.8, INK));
      TextsOfOne(MARGIN_X + 18.0, at, entries[k].0 + ": ", HelveticaBold, 10.8, INK);
      TextsOfOne(MARGIN_X + 120.0, at, entries[k].1, Helvetica, 10.8, INK);
    }
  }

  lemma TextsOfCover(c: Cover)
    ensures Texts(CoverOps(c)) == CoverTexts(c)
  {
    hide Texts, TextOps, EntriesOps, EntriesTexts;
    var title := TextOps(MARGIN_X, PAGE_HEIGHT - 140.0, c.title, HelveticaBold, 30.0, WHITE);
    var subtitle := TextOps(MARGIN_X, PAGE_HEIGHT - 175.0, c.subtitle, Helvetica, 14.0, SUBTITLE_INK);
    var caption := TextOps(MARGIN_X + 18.0, PAGE_HEIGHT - 206.0, "Metadados do documento", HelveticaBold, 12.0,
                           HEADER_INK);
    var foot := TextOps(MARGIN_X, 60.0, COVER_FOOT, Helvetica, 10.0, ROUTE_INK);
    var entries := EntriesOps(c.metadata, PAGE_HEIGHT - 292.0);
    TextsOfRaw(COVER_FRONT);
    TextsOfRaw(COVER_PANEL);
    TextsOfRaw(COVER_LINE);
    TextsOfOne(MARGIN_X, PAGE_HEIGHT - 140.0, c.title, HelveticaBold, 30.0, WHITE);
    TextsOfOne(MARGIN_X, PAGE_HEIGHT - 175.0, c.subtitle, Helvetica, 14.0, SUBTITLE_INK);
    TextsOfOne(MARGIN_X + 18.0, PAGE_HEIGHT - 206.0, "Metadados do documento", HelveticaBold, 12.0, HEADER_INK);
    TextsOfOne(MARGIN_X, 60.0, COVER_FOOT, Helvetica, 10.0, ROUTE_INK);
    TextsOfEntries(c.metadata, PAGE_HEIGHT - 292.0);
    TextsAppend(COVER_FRONT, title);
    TextsAppend(COVER_FRONT + title, subtitle);
    TextsAppend(COVER_FRONT + title + subtitle, COVER_PANEL);
    TextsAppend(COVER_FRONT + title + subtitle + COVER_PANEL, caption);
    TextsAppend(CoverHead(c), entries);
    TextsAppend(CoverHead(c) + entries, COVER_LINE);
    TextsAppend(CoverHead(c) + entries + COVER_LINE, foot);
  }

  lemma HeadingTexts(s: Sheet, text: string, level: int)
    ensures Texts(Flat(LayoutHeading(s, text, level))) == Texts(Flat(s)) + [text]
  {
    hide Texts;
    var needed := StyleOf(level).size + StyleOf(level).spacing + 12.0;
    var ops := HeadingOps(text, level, Ensure(s, needed).y);
    EnsureKeepsOps(s, needed);
    assert Flat(LayoutHeading(s, text, level)) == Flat(s) + ops;
    TextsAppend(Flat(s), ops);
    TextsOfHeading(text, level, Ensure(s, needed).y);
  }

  lemma ParaTexts(s: Sheet, p: Para)
    requires p.Valid()
    ensures Texts(Flat(LayoutPara(s, p))) == Texts(Flat(s)) + p.Lines()
  {
    hide EstimateLines, LineOps, Times, Texts;
    var s1 := Ensure(s, p.Needed());
    EnsureKeepsOps(s, p.Needed());
    assert Flat(LayoutPara(s, p)) == Flat(s) + p.Ops(s1.y);
    TextsAppend(Flat(s), p.Ops(s1.y));
    TextsOfLines(MARGIN_X + p.indent, s1.y, p.Lines(), p.Leading(), p.font, p.size, p.color);
  }

  lemma RowsReadInOrder(s: Sheet, t: Table)
    requires t.Drawable()
    ensures Texts(Flat(LayoutRows(s, t))) == Texts(Flat(s)) + RowsTexts(t.AllRows(), t.Cols())
  {
    hide EstimateLines, RowOps, RowsOps, Texts, RowTexts;
    var s1 := Ensure(s, t.TotalHeight() + 8.0);
    EnsureKeepsOps(s, t.TotalHeight() + 8.0);
    var hs := Heights(t.AllRows(), t.Cols());
    var ops := RowsOps(t.AllRows(), s1.y, hs, t.Cols());
    assert Flat(LayoutRows(s, t)) == Flat(s) + ops;
    TextsAppend(Flat(s), ops);
    TextsOfRows(t.AllRows(), s1.y, hs, t.Cols());
  }

  lemma BlockReadsInOrder(s: Sheet, b: Block)
    requires ValidBlock(b)
    ensures Texts(Flat(LayoutBlock(s, b).0)) == Texts(Flat(s)) + BlockTexts(b)
    ensures !LayoutBlock(s, b).1 <==> b.TableBlock? && !b.table.Drawable()
  {
    hide EstimateLines, Texts, Flat, LayoutPara, LayoutRows, LayoutHeading;
    match b
    case ParaBlock(p) =>
      ParaTexts(s, p);
    case HeadingBlock(text, level) =>
      HeadingTexts(s, text, level);
    case TableBlock(t) =>
      if t.Titled() {
        HeadingTexts(s, t.title.value, 3);
      }
      if t.Drawable() {
        RowsReadInOrder(LayoutTitle(s, t), t);
      }
  }

  /**
   Reading all pages in order gives back the document's lines in order, wherever the page breaks fell,
   with nothing lost and nothing drawn twice.
   */
  lemma {:induction false} DocumentReadsInOrder(s: Sheet, blocks: seq<Block>)
    requires forall i :: 0 <= i < |blocks| ==> ValidBlock(blocks[i])
    ensures Texts(Flat(Layout(s, blocks).0)) == Texts(Flat(s)) + DocumentTexts(blocks)
    decreases |blocks|
  {
    hide LayoutBlock, BlockTexts, Texts, Flat;
    if blocks != [] {
      BlockReadsInOrder(s, blocks[0]);
      if LayoutBlock(s, blocks[0]).1 {
        DocumentReadsInOrder(LayoutBlock(s, blocks[0]).0, blocks[1..]);
      }
    }
  }

  // ----- what a document draws, and whether it stays on its pages -----

  /** Whether what a block draws has room between the margins of a page. */
  predicate Roomy(b: Block)
    requires ValidBlock(b)
  {
    match b
    case ParaBlock(p) => Times(|p.Lines()| - 1, p.Leading()) <= BODY
    case HeadingBlock(_, _) => true
    case TableBlock(t) => t.Drawable() ==> t.TotalHeight() <= BODY
  }

  /** Whether measuring a row of a table raises, which ends the document. */
  predicate Raises(b: Block) {
    b.TableBlock? && !b.table.Drawable()
  }

  /** The blocks up to and including the first that raises. */
  predicate Reached(blocks: seq<Block>, i: nat)
    requires i < |blocks|
  {
    forall j :: 0 <= j < i ==> !Raises(blocks[j])
  }

  /** Whether every block that is reached has room. */
  predicate ReachedAreRoomy(blocks: seq<Block>)
    requires forall i :: 0 <= i < |blocks| ==> ValidBlock(blocks[i])
  {
    forall i :: 0 <= i < |blocks| && Reached(blocks, i) ==> Roomy(blocks[i])
  }

  function HeadingNeeded(level: int): real {
    StyleOf(level).size + StyleOf(level).spacing + 12.0
  }

  function TitleOps(s: Sheet, t: Table): seq<Op> {
    if t.Titled() then HeadingOps(t.title.value, 3, Ensure(s, HeadingNeeded(3)).y) else []
  }

  function TableOps(s: Sheet, t: Table): seq<Op>
    requires t.Drawable()
  {
    RowsOps(t.AllRows(), Ensure(s, t.TotalHeight() + 8.0).y, Heights(t.AllRows(), t.Cols()), t.Cols())
  }

  /** Every operator a block emits, in order: texts, rules, boxes and colours. */
  function BlockOps(s: Sheet, b: Block): seq<Op>
    requires ValidBlock(b)
  {
    match b
    case ParaBlock(p) => p.Ops(Ensure(s, p.Needed()).y)
    case HeadingBlock(text, level) => HeadingOps(text, level, Ensure(s, HeadingNeeded(level)).y)
    case TableBlock(t) => TitleOps(s, t) + if t.Drawable() then TableOps(LayoutTitle(s, t), t) else []
  }

  /** Every operator a document emits, in order, up to the first block that raises. */
  function DocumentOps(s: Sheet, blocks: seq<Block>): seq<Op>
    requires forall i :: 0 <= i < |blocks| ==> ValidBlock(blocks[i])
    decreases |blocks|
  {
    if blocks == [] then [] else
    var (s1, ok) := LayoutBlock(s, blocks[0]);
    BlockOps(s, blocks[0]) + if ok then DocumentOps(s1, blocks[1..]) else []
  }

  lemma HeadingAdds(s: Sheet, text: string, level: int)
    requires s.y <= TOP
    ensures var drawn := HeadingOps(text, level, Ensure(s, HeadingNeeded(level)).y);
            Flat(LayoutHeading(s, text, level)) == Flat(s) + drawn && AllInPage(drawn)
    ensures LayoutHeading(s, text, level).y <= TOP
  {
    EnsureRoom(s, HeadingNeeded(level));
    EnsureKeepsOps(s, HeadingNeeded(level));
  }

  lemma ParaAdds(s: Sheet, p: Para)
    requires s.y <= TOP && p.Valid()
    ensures var drawn := p.Ops(Ensure(s, p.Needed()).y);
            Flat(LayoutPara(s, p)) == Flat(s) + drawn && (AllInPage(drawn) <==> Roomy(ParaBlock(p)))
    ensures LayoutPara(s, p).y <= TOP
  {
    hide EstimateLines, LineOps, Between;
    EnsureRoom(s, p.Needed());
    EnsureKeepsOps(s, p.Needed());
    ParagraphOnPageIff(s, p);
    TimesNatural(|p.Lines()|, p.Leading());
  }

  lemma TimesNatural(n: nat, x: real)
    requires x >= 0.0
    ensures Times(n, x) >= 0.0
  {}

  lemma RowsAdd(s: Sheet, t: Table)
    requires s.y <= TOP && t.Drawable()
    ensures Flat(LayoutRows(s, t)) == Flat(s) + TableOps(s, t)
    ensures AllInPage(TableOps(s, t)) <==> t.TotalHeight() <= BODY
    ensures LayoutRows(s, t).y <= TOP
  {
    hide EstimateLines, RowHeight, RowsOps, Between;
    EnsureRoom(s, t.TotalHeight() + 8.0);
    EnsureKeepsOps(s, t.TotalHeight() + 8.0);
    TableOnPageIff(s, t);
    TableBetween(t, Ensure(s, t.TotalHeight() + 8.0).y);
  }

  lemma TitleAdds(s: Sheet, t: Table)
    requires s.y <= TOP
    ensures Flat(LayoutTitle(s, t)) == Flat(s) + TitleOps(s, t) && AllInPage(TitleOps(s, t))
    ensures LayoutTitle(s, t).y <= TOP
  {
    hide Flat, LayoutHeading, Between;
    if t.Titled() {
      HeadingAdds(s, t.title.value, 3);
    } else {
      NothingInPage();
    }
  }

  lemma TableAdds(s: Sheet, t: Table)
    requires s.y <= TOP
    ensures var (s1, drawn) := (LayoutBlock(s, TableBlock(t)).0, BlockOps(s, TableBlock(t)));
            Flat(s1) == Flat(s) + drawn && (AllInPage(drawn) <==> Roomy(TableBlock(t))) && s1.y <= TOP
  {
    hide Flat, LayoutRows, LayoutTitle, TitleOps, TableOps, Between, EstimateLines;
    TitleAdds(s, t);
    if t.Drawable() {
      var title, rows := TitleOps(s, t), TableOps(LayoutTitle(s, t), t);
      RowsAdd(LayoutTitle(s, t), t);
      BetweenAppend(title, rows, MARGIN_BOTTOM, TOP);
      assert Flat(s) + title + rows == Flat(s) + (title + rows);
    } else {
      assert TitleOps(s, t) + [] == TitleOps(s, t);
    }
  }

  lemma BlockAdds(s: Sheet, b: Block)
    requires s.y <= TOP && ValidBlock(b)
    ensures Flat(LayoutBlock(s, b).0) == Flat(s) + BlockOps(s, b) && (AllInPage(BlockOps(s, b)) <==> Roomy(b))
    ensures LayoutBlock(s, b).0.y <= TOP
    ensures LayoutBlock(s, b).1 <==> !Raises(b)
  {
    hide Flat, LayoutPara, LayoutHeading, LayoutRows, LayoutTitle, Between, EstimateLines, TitleOps, TableOps;
    match b
    case ParaBlock(p) => ParaAdds(s, p);
    case HeadingBlock(text, level) => HeadingAdds(s, text, level);
    case TableBlock(t) => TableAdds(s, t);
  }

  lemma NothingInPage()
    ensures AllInPage([])
  {}

  /**
   From any state of the writer, the operators of a document follow what is there already, and stay between the
   margins of their pages if and only if every block up to the first that raises has room on a page.
   */
  lemma {:induction false} DocumentOnPagesIff(s: Sheet, blocks: seq<Block>)
    requires s.y <= TOP
    requires forall i :: 0 <= i < |blocks| ==> ValidBlock(blocks[i])
    ensures Flat(Layout(s, blocks).0) == Flat(s) + DocumentOps(s, blocks)
    ensures AllInPage(DocumentOps(s, blocks)) <==> ReachedAreRoomy(blocks)
    decreases |blocks|
  {
    hide Flat, LayoutBlock, BlockOps, Between, Roomy, Raises, ValidBlock;
    if blocks == [] {
      NothingInPage();
      assert Flat(s) + [] == Flat(s);
    } else {
      var (s1, ok) := LayoutBlock(s, blocks[0]);
      var first, rest := BlockOps(s, blocks[0]), if ok then DocumentOps(s1, blocks[1..]) else [];
      BlockAdds(s, blocks[0]);
      assert Reached(blocks, 0);
      if ok {
        DocumentOnPagesIff(s1, blocks[1..]);
        BetweenAppend(first, rest, MARGIN_BOTTOM, TOP);
        assert Flat(s) + first + rest == Flat(s) + (first + rest);
        forall i | 0 < i < |blocks| ensures Reached(blocks, i) <==> Reached(blocks[1..], i - 1) {
          ReachedLater(blocks, i);
        }
        RoomyLater(blocks);
      } else {
        assert first + [] == first;
        forall i | 0 < i < |blocks| ensures !Reached(blocks, i) {
          assert Raises(blocks[0]);
        }
      }
    }
  }

  lemma ReachedLater(blocks: seq<Block>, i: nat)
    requires 0 < i < |blocks| && !Raises(blocks[0])
    ensures Reached(blocks, i) <==> Reached(blocks[1..], i - 1)
  {
    hide Raises;
    if Reached(blocks[1..], i - 1) {
      forall j | 0 < j < i ensures !Raises(blocks[j]) {
        assert blocks[j] == blocks[1..][j - 1];
      }
    }
  }

  lemma RoomyLater(blocks: seq<Block>)
    requires blocks != [] && forall i :: 0 <= i < |blocks| ==> ValidBlock(blocks[i])
    requires forall i :: 0 < i < |blocks| ==> (Reached(blocks, i) <==> Reached(blocks[1..], i - 1))
    requires Reached(blocks, 0)
    ensures ReachedAreRoomy(blocks) <==> Roomy(blocks[0]) && ReachedAreRoomy(blocks[1..])
  {
    hide Reached, Roomy, ValidBlock;
    var rest := blocks[1..];
    if Roomy(blocks[0]) && ReachedAreRoomy(rest) {
      forall i | 0 <= i < |blocks| && Reached(blocks, i) ensures Roomy(blocks[i]) {
        if i > 0 {
          assert rest[i - 1] == blocks[i];
        }
      }
    }
    if ReachedAreRoomy(blocks) {
      forall i | 0 <= i < |rest| && Reached(rest, i) ensures Roomy(rest[i]) {
        assert rest[i] == blocks[i + 1];
        assert Reached(blocks, i + 1) <==> Reached(rest, i + 1 - 1);
      }
    }
  }

  // ----- finished pages -----

  /** No finished page is empty. */
  ghost predicate NoEmptyPage(s: Sheet) {
    forall i :: 0 <= i < |s.pages| ==> s.pages[i] != []
  }

  lemma BlockLeavesNoEmptyPage(s: Sheet, b: Block)
    requires NoEmptyPage(s) && ValidBlock(b)
    ensures NoEmptyPage(LayoutBlock(s, b).0)
  {
    hide EstimateLines, LineOps, HeadingOps, RowsOps, RowHeight, Times, Max, Sum;
  }

  /** Whatever a document draws, and whether or not it fits, no page is finished empty. */
  lemma {:induction false} DocumentLeavesNoEmptyPage(s: Sheet, blocks: seq<Block>)
    requires NoEmptyPage(s) && forall i :: 0 <= i < |blocks| ==> ValidBlock(blocks[i])
    ensures NoEmptyPage(Layout(s, blocks).0)
    decreases |blocks|
  {
    hide LayoutBlock, NoEmptyPage;
    if blocks != [] {
      BlockLeavesNoEmptyPage(s, blocks[0]);
      if LayoutBlock(s, blocks[0]).1 {
        DocumentLeavesNoEmptyPage(LayoutBlock(s, blocks[0]).0, blocks[1..]);
      }
    }
  }

  // ----- pages that come before -----

  /** A state with `front` before its pages and `n` more counted. */
  function After(front: seq<seq<Op>>, n: nat, s: Sheet): Sheet {
    s.(pages := front + s.pages, number := n + s.number)
  }

  lemma EnsureAfter(front: seq<seq<Op>>, n: nat, s: Sheet, needed: real)
    ensures Ensure(After(front, n, s), needed) == After(front, n, Ensure(s, needed))
  {
    assert front + (s.pages + [s.current]) == front + s.pages + [s.current];
  }

  lemma BlockAfter(front: seq<seq<Op>>, n: nat, s: Sheet, b: Block)
    requires ValidBlock(b)
    ensures LayoutBlock(After(front, n, s), b) == (After(front, n, LayoutBlock(s, b).0), LayoutBlock(s, b).1)
  {
    hide Ensure, EstimateLines, LineOps, HeadingOps, RowsOps, RowHeight, Times;
    match b
    case ParaBlock(p) => EnsureAfter(front, n, s, p.Needed());
    case HeadingBlock(text, level) => EnsureAfter(front, n, s, StyleOf(level).size + StyleOf(level).spacing + 12.0);
    case TableBlock(t) =>
      EnsureAfter(front, n, s, StyleOf(3).size + StyleOf(3).spacing + 12.0);
      if t.Drawable() {
        EnsureAfter(front, n, LayoutTitle(s, t), t.TotalHeight() + 8.0);
      }
  }

  /** Pages finished earlier are kept in front, and nothing that follows depends on them. */
  lemma {:induction false} LayoutAfter(front: seq<seq<Op>>, n: nat, s: Sheet, blocks: seq<Block>)
    requires forall i :: 0 <= i < |blocks| ==> ValidBlock(blocks[i])
    ensures Layout(After(front, n, s), blocks) == (After(front, n, Layout(s, blocks).0), Layout(s, blocks).1)
    decreases |blocks|
  {
    hide LayoutBlock, After;
    if blocks != [] {
      BlockAfter(front, n, s, blocks[0]);
      LayoutAfter(front, n, LayoutBlock(s, blocks[0]).0, blocks[1..]);
    }
  }
}
