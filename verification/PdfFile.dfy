/**
 The file structure `PDFWriter.build` writes (header, indirect objects, cross-reference table, trailer), and a
 reader that starts from the end of the file as sections 7.5.4 and 7.5.5 of ISO 32000-1 prescribe.
 A byte is a `char` below 256.
 */
module PdfFile {
  import opened Results
  import opened Decimal
  import opened Lexing

  // ----- dictionaries as token lists -----

  const PDF_CLASSES := Classes((c: char) => c in {' ', '\n', '\r', '\t', '\U{C}', '\U{0}'},
                               (c: char) => c == '[' || c == ']')

  /** A token that survives printing: a bracket, or an ASCII word. */
  predicate IsToken(t: string) {
    t == "[" || t == "]" || (IsWord(t, PDF_CLASSES) && forall i :: 0 <= i < |t| ==> t[i] as int < 0x80)
  }

  predicate AreTokens(ts: seq<string>) {
    forall i :: 0 <= i < |ts| ==> IsToken(ts[i])
  }

  /** One space between tokens, none inside a bracket. */
  function Print(ts: seq<string>): string {
    if ts == [] then ""
    else if |ts| == 1 then ts[0]
    else ts[0] + (if ts[0] == "[" || ts[1] == "]" then "" else " ") + Print(ts[1..])
  }

  lemma {:induction false} PrintedAscii(ts: seq<string>)
    requires AreTokens(ts)
    ensures forall i :: 0 <= i < |Print(ts)| ==> Print(ts)[i] as int < 0x80 && Print(ts)[i] != '\n'
  {
    if |ts| > 1 {
      PrintedAscii(ts[1..]);
      assert IsToken(ts[0]);
    }
  }

  lemma TokensAfterBlank(rest: string)
    ensures Tokens(" " + rest, PDF_CLASSES) == Tokens(rest, PDF_CLASSES)
  {
    assert (" " + rest)[1..] == rest;
  }

  lemma TokenFirst(t: string, rest: string)
    requires IsToken(t)
    requires t == "[" || t == "]" || rest == "" || PDF_CLASSES.Ends(rest[0])
    ensures Tokens(t + rest, PDF_CLASSES) == [t] + Tokens(rest, PDF_CLASSES)
  {
    if t == "[" || t == "]" {
      assert (t + rest)[1..] == rest;
    } else {
      WordFirst(t, rest, PDF_CLASSES);
    }
  }

  /** Lexing a printed dictionary gives its tokens back. */
  lemma PrintStep(ts: seq<string>)
    requires |ts| > 1
    ensures Print(ts) == if ts[0] == "[" || ts[1] == "]" then ts[0] + Print(ts[1..]) else ts[0] + (" " + Print(ts[1..]))
  {
    var tail := Print(ts[1..]);
    assert ts[0] + "" + tail == ts[0] + tail && ts[0] + " " + tail == ts[0] + (" " + tail);
  }

  lemma TokenSpaced(t: string, tail: string)
    requires IsToken(t)
    ensures Tokens(t + (" " + tail), PDF_CLASSES) == [t] + Tokens(tail, PDF_CLASSES)
  {
    hide IsToken, Tokens;
    TokensAfterBlank(tail);
    TokenFirst(t, " " + tail);
  }

  lemma TokenAlone(t: string)
    requires IsToken(t)
    ensures Tokens(t, PDF_CLASSES) == [t]
  {
    TokenFirst(t, "");
    assert t + "" == t;
  }

  lemma TokensAreFilled(ts: seq<string>)
    requires AreTokens(ts)
    ensures forall i :: 0 <= i < |ts| ==> ts[i] != ""
  {}

  lemma {:induction false} TokensOfPrinted(ts: seq<string>)
    requires AreTokens(ts)
    ensures Tokens(Print(ts), PDF_CLASSES) == ts
  {
    TokensAreFilled(ts);
    hide IsToken, Tokens;
    if ts == [] {
      NoTokens();
    } else if |ts| == 1 {
      TokenAlone(ts[0]);
    } else {
      PrintStep(ts);
      hide Print;
      TokensOfPrinted(ts[1..]);
      assert ts == [ts[0]] + ts[1..];
      if ts[0] == "[" || ts[1] == "]" {
        PrintStarts(ts[1..]);
        TokenFirst(ts[0], Print(ts[1..]));
      } else {
        TokenSpaced(ts[0], Print(ts[1..]));
      }
    }
  }

  lemma NoTokens()
    ensures Tokens("", PDF_CLASSES) == []
  {}

  lemma PrintStarts(ts: seq<string>)
    requires ts != [] && ts[0] != ""
    ensures Print(ts) != "" && Print(ts)[0] == ts[0][0]
  {}

  lemma DecIsToken(n: nat)
    ensures IsToken(Dec(n))
  {
    assert AllDigits(Dec(n));
  }

  // ----- the objects of the file -----

  datatype PdfObject = Dict(tokens: seq<string>) | Content(data: string) {
    function Entries(): seq<string> {
      match this
      case Dict(ts) => ts
      case Content(data) => ["<<", "/Length", Dec(|data|), ">>"]
    }

    function Text(): string {
      match this
      case Dict(ts) => Print(ts)
      case Content(data) => Print(Entries()) + "\nstream\n" + data + "\nendstream"
    }

    function Stream(): Option<string> {
      match this
      case Dict(_) => None
      case Content(data) => Some(data)
    }
  }

  function Ref(id: nat): seq<string> {
    [Dec(id), "0", "R"]
  }

  function FontDict(base: string): seq<string> {
    ["<<", "/Type", "/Font", "/Subtype", "/Type1", "/BaseFont", base, ">>"]
  }

  const MEDIA_BOX: seq<string> := ["/MediaBox", "[", "0", "0", "595.28", "841.89", "]"]
  const FONT_RESOURCES: seq<string> :=
    ["/Resources", "<<", "/Font", "<<", "/F1", "1", "0", "R", "/F2", "2", "0", "R", "/F3", "3", "0", "R", ">>", ">>"]

  function PageDict(pagesId: nat, contentId: nat): seq<string> {
    ["<<", "/Type", "/Page", "/Parent"] + Ref(pagesId) + (MEDIA_BOX + FONT_RESOURCES) + ["/Contents"]
      + Ref(contentId) + [">>"]
  }

  /** The references `from 0 R`, `from+1 0 R`, ... to `n` objects in a row. */
  function Refs(from: nat, n: nat): seq<string>
    decreases n
  {
    if n == 0 then [] else Ref(from) + Refs(from + 1, n - 1)
  }

  function PagesDict(firstPage: nat, n: nat): seq<string> {
    ["<<", "/Type", "/Pages", "/Kids", "["] + Refs(firstPage, n) + ["]", "/Count", Dec(n), ">>"]
  }

  function CatalogDict(pagesId: nat): seq<string> {
    ["<<", "/Type", "/Catalog", "/Pages"] + Ref(pagesId) + [">>"]
  }

  const INFO_DICT: seq<string> :=
    ["<<", "/Title", "(t2c_data", "Manual)", "/Author", "(Codex)", "/Subject", "(Manual", "corporativo)", ">>"]

  function TrailerDict(size: nat, catalogId: nat, infoId: nat): seq<string> {
    ["<<", "/Size", Dec(size), "/Root"] + Ref(catalogId) + ["/Info"] + Ref(infoId) + [">>"]
  }

  // Object numbers, for a document of n pages: fonts 1 to 3, then contents, pages, /Pages, catalog, info.

  function ContentId(k: nat): nat { 4 + k }

  function PageId(n: nat, k: nat): nat { 4 + n + k }

  function PagesId(n: nat): nat { 4 + 2 * n }

  const FONT_OBJECTS: seq<PdfObject> :=
    [Dict(FontDict("/Helvetica")), Dict(FontDict("/Helvetica-Bold")), Dict(FontDict("/Helvetica-Oblique"))]

  function ContentObjects(data: seq<string>): seq<PdfObject> {
    seq(|data|, k requires 0 <= k < |data| => Content(data[k]))
  }

  function PageObjects(n: nat): seq<PdfObject> {
    seq(n, k requires 0 <= k < n => Dict(PageDict(PagesId(n), ContentId(k))))
  }

  function LastObjects(n: nat): seq<PdfObject> {
    [Dict(PagesDict(PageId(n, 0), n)), Dict(CatalogDict(PagesId(n))), Dict(INFO_DICT)]
  }

  function Objects(data: seq<string>): (objs: seq<PdfObject>)
    ensures |objs| == 2 * |data| + 6
  {
    FONT_OBJECTS + ContentObjects(data) + PageObjects(|data|) + LastObjects(|data|)
  }

  // ----- the bytes of the file -----

  const HEADER := "%PDF-1.4\n"

  function ObjectText(id: nat, o: PdfObject): string {
    Dec(id) + " 0 obj\n" + (o.Text() + "\nendobj\n")
  }

  function Body(objs: seq<PdfObject>): string {
    if objs == [] then HEADER else
    var k := |objs| - 1;
    Body(objs[..k]) + ObjectText(k + 1, objs[k])
  }

  function XrefEntry(pos: nat): string {
    Padded(pos, 10) + " 00000 n \n"
  }

  const FREE_ENTRY := "0000000000 65535 f \n"

  /** The entries of the first `k` objects; object `i` starts where the body of the objects before it ends. */
  function XrefEntries(objs: seq<PdfObject>, k: nat): string
    requires k <= |objs|
  {
    if k == 0 then FREE_ENTRY else XrefEntries(objs, k - 1) + XrefEntry(|Body(objs[..k - 1])|)
  }

  function XrefText(objs: seq<PdfObject>): string {
    "xref\n0 " + Dec(|objs| + 1) + "\n" + XrefEntries(objs, |objs|)
  }

  function TrailerText(objs: seq<PdfObject>, catalogId: nat, infoId: nat): string {
    "trailer " + Print(TrailerDict(|objs| + 1, catalogId, infoId)) + "\nstartxref\n" + Dec(|Body(objs)|) + "\n%%EOF"
  }

  function FileText(data: seq<string>): string {
    var objs := Objects(data);
    Body(objs) + XrefText(objs) + TrailerText(objs, PagesId(|data|) + 1, PagesId(|data|) + 2)
  }

  // ----- the reader -----

  /** Whether `s` stands in `f` at position `p`. */
  predicate At(f: string, p: int, s: string) {
    0 <= p && p + |s| <= |f| && f[p..p + |s|] == s
  }

  function DigitsEnd(f: string, p: nat): (e: nat)
    requires p <= |f|
    ensures p <= e <= |f|
    ensures forall i :: p <= i < e ==> IsDigit(f[i])
    ensures e < |f| ==> !IsDigit(f[e])
    decreases |f| - p
  {
    if p < |f| && IsDigit(f[p]) then DigitsEnd(f, p + 1) else p
  }

  function DigitsStart(f: string, e: nat): (p: nat)
    requires e <= |f|
    ensures p <= e
    ensures forall i :: p <= i < e ==> IsDigit(f[i])
    ensures p > 0 ==> !IsDigit(f[p - 1])
  {
    if e > 0 && IsDigit(f[e - 1]) then DigitsStart(f, e - 1) else e
  }

  /** A number at `p` and the position after it. */
  function ReadNat(f: string, p: nat): Option<(nat, nat)> {
    if p > |f| then None else
    var e := DigitsEnd(f, p);
    if e == p then None else Some((Value(f[p..e]), e))
  }

  function LineEnd(f: string, p: nat): (e: nat)
    requires p <= |f|
    ensures p <= e <= |f|
    ensures forall i :: p <= i < e ==> f[i] != '\n'
    ensures e < |f| ==> f[e] == '\n'
    decreases |f| - p
  {
    if p == |f| || f[p] == '\n' then p else LineEnd(f, p + 1)
  }

  /** The number on the line between `startxref` and `%%EOF`, found from the end of the file. */
  function ReadStartXref(f: string): Option<nat> {
    var e := |f| - 6;
    if !At(f, e, "\n%%EOF") then None else
    var p := DigitsStart(f, e);
    if p == e || !At(f, p - 10, "startxref\n") then None else Some(Value(f[p..e]))
  }

  /** The number of entries of the table at `x`, and where the first of them stands. */
  function ReadXrefHeader(f: string, x: nat): Option<(nat, nat)> {
    if !At(f, x, "xref\n0 ") then None else
    match ReadNat(f, x + 7)
    case None => None
    case Some((n, e)) => if At(f, e, "\n") then Some((n, e + 1)) else None
  }

  /** Entry `i` of the table of 20-byte entries at `table`: the position of an object in use. */
  function ReadEntry(f: string, table: nat, i: nat): Option<nat> {
    var p := table + 20 * i;
    if p + 20 <= |f| && AllDigits(f[p..p + 10]) && f[p + 10] == ' ' && AllDigits(f[p + 11..p + 16])
      && At(f, p + 16, " n \n")
    then Some(Value(f[p..p + 10])) else None
  }

  /** The first position at or after `k` that holds `key`, or the end. */
  function Find(ts: seq<string>, key: string, k: nat): (e: nat)
    requires k <= |ts|
    ensures k <= e <= |ts|
    ensures e < |ts| ==> ts[e] == key
    decreases |ts| - k
  {
    if k == |ts| || ts[k] == key then k else Find(ts, key, k + 1)
  }

  function NumberAt(ts: seq<string>, k: nat): Option<nat> {
    if k < |ts| && ts[k] != "" && AllDigits(ts[k]) then Some(Value(ts[k])) else None
  }

  function RefAt(ts: seq<string>, k: nat): Option<nat> {
    if k + 2 < |ts| && ts[k + 1] == "0" && ts[k + 2] == "R" then NumberAt(ts, k) else None
  }

  /** The number, or the object number of the reference, that is the value of `key`. */
  function NumberOf(ts: seq<string>, key: string): Option<nat> {
    NumberAt(ts, Find(ts, key, 0) + 1)
  }

  function RefOf(ts: seq<string>, key: string): Option<nat> {
    RefAt(ts, Find(ts, key, 0) + 1)
  }

  /** References up to the closing bracket. */
  function RefsAt(ts: seq<string>, k: nat): Option<seq<nat>>
    decreases |ts| - k
  {
    if k >= |ts| then None
    else if ts[k] == "]" then Some([])
    else match (RefAt(ts, k), RefsAt(ts, k + 3))
    case (Some(id), Some(ids)) => Some([id] + ids)
    case _ => None
  }

  function RefArrayOf(ts: seq<string>, key: string): Option<seq<nat>> {
    var k := Find(ts, key, 0) + 1;
    if k < |ts| && ts[k] == "[" then RefsAt(ts, k + 1) else None
  }

  /** An indirect object as read: its bytes, the tokens of its dictionary, and the bytes of its stream. */
  datatype Indirect = Indirect(raw: string, dict: seq<string>, stream: Option<string>)

  /** The object at `p`, which must bear number `id`; section 7.3.8 takes the stream's extent from /Length. */
  function ReadObjectAt(f: string, p: nat, id: nat): Option<Indirect> {
    match ReadNat(f, p)
    case None => None
    case Some((n, e)) =>
      if n != id || !At(f, e, " 0 obj\n") then None else
      var b := e + 7;
      var line := LineEnd(f, b);
      var dict := Tokens(f[b..line], PDF_CLASSES);
      if At(f, line, "\nendobj\n") then Some(Indirect(f[b..line], dict, None))
      else if !At(f, line, "\nstream\n") then None
      else
        match NumberOf(dict, "/Length")
        case None => None
        case Some(len) =>
          var s := line + 8;
          if At(f, s + len, "\nendstream\nendobj\n")
          then Some(Indirect(f[b..s + len + 10], dict, Some(f[s..s + len]))) else None
  }

  function ReadObject(f: string, table: nat, id: nat): Option<Indirect> {
    match ReadEntry(f, table, id)
    case None => None
    case Some(p) => ReadObjectAt(f, p, id)
  }

  /** The content stream of a page that names `parent` as its parent. */
  function ReadPage(f: string, table: nat, parent: nat, id: nat): Option<string> {
    match ReadObject(f, table, id)
    case None => None
    case Some(page) =>
      if RefOf(page.dict, "/Parent") != Some(parent) then None else
      match RefOf(page.dict, "/Contents")
      case None => None
      case Some(c) =>
        match ReadObject(f, table, c)
        case None => None
        case Some(content) => content.stream
  }

  function ReadPages(f: string, table: nat, parent: nat, ids: seq<nat>): Option<seq<string>> {
    if ids == [] then Some([]) else
    match (ReadPage(f, table, parent, ids[0]), ReadPages(f, table, parent, ids[1..]))
    case (Some(s), Some(rest)) => Some([s] + rest)
    case _ => None
  }

  /** Trailer, catalog, page tree, pages: the content streams of a document in page order. */
  function ReadDocument(f: string): Option<seq<string>> {
    match ReadStartXref(f)
    case None => None
    case Some(x) =>
      match ReadXrefHeader(f, x)
      case None => None
      case Some((n, table)) =>
        var t := table + 20 * n;
        if !At(f, t, "trailer ") then None else
        var trailer := Tokens(f[t + 8..LineEnd(f, t + 8)], PDF_CLASSES);
        if NumberOf(trailer, "/Size") != Some(n) then None else
        match RefOf(trailer, "/Root")
        case None => None
        case Some(root) => ReadFromRoot(f, table, root)
  }

  function ReadFromRoot(f: string, table: nat, root: nat): Option<seq<string>> {
    match ReadObject(f, table, root)
    case None => None
    case Some(catalog) =>
      match RefOf(catalog.dict, "/Pages")
      case None => None
      case Some(pagesId) =>
        match ReadObject(f, table, pagesId)
        case None => None
        case Some(tree) =>
          match RefArrayOf(tree.dict, "/Kids")
          case None => None
          case Some(ids) =>
            if NumberOf(tree.dict, "/Count") != Some(|ids|) then None
            else ReadPages(f, table, pagesId, ids)
  }
}
