/** The reader of PdfFile recovers everything the file text of PdfFile was made from. */
module PdfRoundTrip {
  import opened Results
  import opened Decimal
  import opened Lexing
  import opened PdfFile

  lemma AtSplit(f: string, p: int, a: string, b: string)
    ensures At(f, p, a + b) <==> At(f, p, a) && At(f, p + |a|, b)
  {
    if At(f, p, a + b) {
      assert f[p..p + |a|] == f[p..p + |a + b|][..|a|];
      assert f[p + |a|..p + |a| + |b|] == f[p..p + |a + b|][|a|..];
    }
    if At(f, p, a) && At(f, p + |a|, b) {
      assert f[p..p + |a + b|] == f[p..p + |a|] + f[p + |a|..p + |a| + |b|];
    }
  }

  lemma AtWithin(f: string, p: int, s: string, q: int, t: string)
    requires At(f, p, s) && At(s, q, t)
    ensures At(f, p + q, t)
  {
    forall i | 0 <= i < |t| ensures f[p + q + i] == t[i] {
      assert t[i] == s[q..q + |t|][i] == s[q + i] == f[p..p + |s|][q + i];
    }
  }

  lemma AtWhole(s: string)
    ensures At(s, 0, s)
  {}

  // ----- numbers and lines -----

  lemma {:induction false} DigitsEndIs(f: string, p: nat, e: nat)
    requires p <= e < |f|
    requires forall i :: p <= i < e ==> IsDigit(f[i])
    requires !IsDigit(f[e])
    ensures DigitsEnd(f, p) == e
    decreases e - p
  {
    if p < e {
      DigitsEndIs(f, p + 1, e);
    }
  }

  lemma {:induction false} DigitsStartIs(f: string, p: nat, e: nat)
    requires 0 < p <= e <= |f|
    requires forall i :: p <= i < e ==> IsDigit(f[i])
    requires !IsDigit(f[p - 1])
    ensures DigitsStart(f, e) == p
  {
    if p < e {
      DigitsStartIs(f, p, e - 1);
    }
  }

  lemma {:induction false} LineEndIs(f: string, p: nat, e: nat)
    requires p <= e < |f|
    requires forall i :: p <= i < e ==> f[i] != '\n'
    requires f[e] == '\n'
    ensures LineEnd(f, p) == e
    decreases e - p
  {
    if p < e {
      LineEndIs(f, p + 1, e);
    }
  }

  lemma ReadsNat(f: string, p: nat, n: nat, after: string)
    requires At(f, p, Dec(n) + after)
    requires after != "" && !IsDigit(after[0])
    ensures ReadNat(f, p) == Some((n, p + |Dec(n)|))
    ensures At(f, p + |Dec(n)|, after)
  {
    var e := p + |Dec(n)|;
    AtSplit(f, p, Dec(n), after);
    assert f[e] == f[e..e + |after|][0];
    forall i | p <= i < e ensures IsDigit(f[i]) {
      assert f[i] == f[p..e][i - p];
    }
    DigitsEndIs(f, p, e);
    ValueOfDec(n);
  }

  // ----- lookup -----

  lemma {:induction false} FindIs(ts: seq<string>, key: string, k: nat, e: nat)
    requires k <= e < |ts|
    requires forall i :: k <= i < e ==> ts[i] != key
    requires ts[e] == key
    ensures Find(ts, key, k) == e
    decreases e - k
  {
    if k < e {
      FindIs(ts, key, k + 1, e);
    }
  }

  /** The value of a key that no token before it equals. */
  lemma ValueAfter(before: seq<string>, key: string, after: seq<string>)
    requires key !in before
    ensures Find(before + [key] + after, key, 0) == |before|
  {
    var ts := before + [key] + after;
    forall i | 0 <= i < |before| ensures ts[i] != key {
      assert ts[i] == before[i];
    }
    FindIs(ts, key, 0, |before|);
  }

  lemma NumberIs(before: seq<string>, key: string, n: nat, after: seq<string>)
    requires key !in before
    ensures NumberOf(before + [key] + ([Dec(n)] + after), key) == Some(n)
  {
    ValueAfter(before, key, [Dec(n)] + after);
    ValueOfDec(n);
  }

  lemma RefIs(before: seq<string>, key: string, id: nat, after: seq<string>)
    requires key !in before
    ensures RefOf(before + [key] + (Ref(id) + after), key) == Some(id)
  {
    ValueAfter(before, key, Ref(id) + after);
    ValueOfDec(id);
  }

  /** A token starting with a digit or a capital letter is no key. */
  lemma NotAKey(t: string, key: string)
    requires t != "" && key != "" && t[0] != key[0]
    ensures t != key
  {}

  lemma RefIsNoKey(id: nat, key: string)
    requires key != "" && key[0] == '/'
    ensures key !in Ref(id)
  {
    assert AllDigits(Dec(id));
    NotAKey(Dec(id), key);
    NotAKey("0", key);
    NotAKey("R", key);
  }

  // ----- indirect objects -----

  predicate WellFormed(o: PdfObject) {
    AreTokens(o.Entries())
  }

  lemma ReadsDictLine(f: string, b: nat, ts: seq<string>, after: string)
    requires AreTokens(ts)
    requires At(f, b, Print(ts) + ("\n" + after))
    ensures LineEnd(f, b) == b + |Print(ts)|
    ensures f[b..LineEnd(f, b)] == Print(ts)
    ensures Tokens(f[b..LineEnd(f, b)], PDF_CLASSES) == ts
    ensures At(f, b + |Print(ts)|, "\n" + after)
  {
    hide Tokens, Print;
    var e := b + |Print(ts)|;
    AtSplit(f, b, Print(ts), "\n" + after);
    PrintedAscii(ts);
    forall i | b <= i < e ensures f[i] != '\n' {
      assert f[i] == f[b..e][i - b];
    }
    assert f[e] == f[e..e + |"\n" + after|][0];
    LineEndIs(f, b, e);
    TokensOfPrinted(ts);
  }

  lemma ReadsDictObject(f: string, p: nat, id: nat, ts: seq<string>)
    requires AreTokens(ts)
    requires At(f, p, ObjectText(id, Dict(ts)))
    ensures ReadObjectAt(f, p, id) == Some(Indirect(Print(ts), ts, None))
  {
    hide Tokens, Print, Dec, ReadNat, LineEnd, NumberOf, IsToken, At;
    var tail := Print(ts) + "\nendobj\n";
    assert ObjectText(id, Dict(ts)) == Dec(id) + (" 0 obj\n" + tail);
    ReadsNat(f, p, id, " 0 obj\n" + tail);
    var e := p + |Dec(id)|;
    AtSplit(f, e, " 0 obj\n", tail);
    assert "\nendobj\n" == "\n" + "endobj\n";
    ReadsDictLine(f, e + 7, ts, "endobj\n");
  }

  lemma LengthTokens(n: nat)
    ensures AreTokens(["<<", "/Length", Dec(n), ">>"])
    ensures NumberOf(["<<", "/Length", Dec(n), ">>"], "/Length") == Some(n)
  {
    hide Dec, Find, IsToken, NumberOf;
    LengthLiterals();
    DecIsToken(n);
    NumberIs(["<<"], "/Length", n, [">>"]);
    assert ["<<"] + ["/Length"] + ([Dec(n)] + [">>"]) == ["<<", "/Length", Dec(n), ">>"];
  }

  lemma LengthLiterals()
    ensures IsToken("<<") && IsToken("/Length") && IsToken(">>")
    ensures "/Length" !in ["<<"]
  {
    NotAKey("<<", "/Length");
  }

  lemma ReadsContentObject(f: string, p: nat, id: nat, data: string)
    requires At(f, p, ObjectText(id, Content(data)))
    ensures var o := Content(data);
            ReadObjectAt(f, p, id) == Some(Indirect(o.Text(), o.Entries(), Some(data)))
  {
    hide Tokens, Print, Dec, ReadNat, LineEnd, NumberOf, IsToken, At;
    var o := Content(data);
    var ts := o.Entries();
    LengthTokens(|data|);
    var tail := data + "\nendstream\nendobj\n";
    var body := Print(ts) + ("\n" + ("stream\n" + tail));
    ContentText(id, data);
    ReadsNat(f, p, id, " 0 obj\n" + body);
    var b := p + |Dec(id)| + 7;
    AtSplit(f, b - 7, " 0 obj\n", body);
    ReadsDictLine(f, b, ts, "stream\n" + tail);
    var line := b + |Print(ts)|;
    AtSplit(f, line, "\nstream\n", tail);
    StreamIsNotEnd(f, line);
    AtSplit(f, line + 8, data, "\nendstream\nendobj\n");
    AtSplit(f, b, Print(ts), "\n" + ("stream\n" + tail));
    AtSlice(f, line + 8, data);
    RawText(f, b, o, line, line + 8);
  }

  /** The text of a content object, grouped the way the reader takes it apart. */
  lemma ContentText(id: nat, data: string)
    ensures var o := Content(data);
            var tail := data + "\nendstream\nendobj\n";
            && ObjectText(id, o) == Dec(id) + (" 0 obj\n" + (Print(o.Entries()) + ("\n" + ("stream\n" + tail))))
            && "\n" + ("stream\n" + tail) == "\nstream\n" + tail
  {
    hide Print, Dec;
    var o := Content(data);
    var tail := data + "\nendstream\nendobj\n";
    assert o.Text() + "\nendobj\n" == Print(o.Entries()) + ("\n" + ("stream\n" + tail));
  }

  lemma StreamIsNotEnd(f: string, p: int)
    requires At(f, p, "\nstream\n")
    ensures !At(f, p, "\nendobj\n")
  {
    assert f[p + 1] == f[p..p + 8][1] == 's';
    assert "\nendobj\n"[1] == 'e';
  }

  lemma AtSlice(f: string, p: int, s: string)
    requires At(f, p, s)
    ensures 0 <= p && p + |s| <= |f| && f[p..p + |s|] == s
  {}

  lemma RawText(f: string, b: nat, o: PdfObject, line: nat, s: nat)
    requires o.Content?
    requires line == b + |Print(o.Entries())| && s == line + 8
    requires At(f, b, Print(o.Entries())) && At(f, line, "\nstream\n") && At(f, s, o.data)
    requires At(f, s + |o.data|, "\nendstream\nendobj\n")
    ensures f[b..s + |o.data| + 10] == o.Text()
  {
    hide Print, Dec, At;
    var e := s + |o.data|;
    assert "\nendstream\nendobj\n" == "\nendstream" + "\nendobj\n";
    AtSplit(f, e, "\nendstream", "\nendobj\n");
    AtSplit(f, s, o.data, "\nendstream");
    AtSplit(f, line, "\nstream\n", o.data + "\nendstream");
    AtSplit(f, b, Print(o.Entries()), "\nstream\n" + (o.data + "\nendstream"));
    assert o.Text() == Print(o.Entries()) + ("\nstream\n" + (o.data + "\nendstream"));
    AtSlice(f, b, o.Text());
  }

  lemma ReadsObjectText(f: string, p: nat, id: nat, o: PdfObject)
    requires WellFormed(o)
    requires At(f, p, ObjectText(id, o))
    ensures ReadObjectAt(f, p, id) == Some(Indirect(o.Text(), o.Entries(), o.Stream()))
  {
    match o
    case Dict(ts) => ReadsDictObject(f, p, id, ts);
    case Content(data) => ReadsContentObject(f, p, id, data);
  }

  // ----- the cross-reference table -----

  lemma {:induction false} ObjectInBody(objs: seq<PdfObject>, i: nat)
    requires i < |objs|
    ensures At(Body(objs), |Body(objs[..i])|, ObjectText(i + 1, objs[i]))
    ensures |Body(objs[..i])| < |Body(objs)|
  {
    hide ObjectText;
    var k := |objs| - 1;
    AtWhole(Body(objs));
    AtSplit(Body(objs), 0, Body(objs[..k]), ObjectText(k + 1, objs[k]));
    ObjectTextNonempty(k + 1, objs[k]);
    if i < k {
      ObjectInBody(objs[..k], i);
      assert objs[..k][..i] == objs[..i];
      AtWithin(Body(objs), 0, Body(objs[..k]), |Body(objs[..i])|, ObjectText(i + 1, objs[i]));
    }
  }

  lemma ObjectTextNonempty(id: nat, o: PdfObject)
    ensures |ObjectText(id, o)| > 0
  {}

  /** The largest position a ten-digit entry can hold. */
  const POSITION_LIMIT: nat := 10_000_000_000

  lemma LimitIsTenDigits()
    ensures POSITION_LIMIT == Pow10(10)
  {
    assert Pow10(5) == 100_000;
    assert Pow10(10) == 10 * Pow10(9) && Pow10(9) == 10 * Pow10(8) && Pow10(8) == 10 * Pow10(7);
    assert Pow10(7) == 10 * Pow10(6) && Pow10(6) == 10 * Pow10(5);
  }

  lemma EntryLength(pos: nat)
    requires pos < POSITION_LIMIT
    ensures |XrefEntry(pos)| == 20 && |Padded(pos, 10)| == 10
  {
    LimitIsTenDigits();
    PaddedLength(pos, 10);
  }

  lemma {:induction false} EntriesInTable(objs: seq<PdfObject>, k: nat, i: nat)
    requires 0 < i <= k <= |objs|
    requires |Body(objs)| <= POSITION_LIMIT
    ensures |XrefEntries(objs, k)| == 20 * (k + 1)
    ensures At(XrefEntries(objs, k), 20 * i, XrefEntry(|Body(objs[..i - 1])|))
  {
    hide Body, XrefEntry;
    ObjectInBody(objs, k - 1);
    var pos := |Body(objs[..k - 1])|;
    EntryLength(pos);
    var t := XrefEntries(objs, k);
    AtWhole(t);
    AtSplit(t, 0, XrefEntries(objs, k - 1), XrefEntry(pos));
    if k > 1 {
      EntriesInTable(objs, k - 1, if i < k then i else 1);
      if i < k {
        AtWithin(t, 0, XrefEntries(objs, k - 1), 20 * i, XrefEntry(|Body(objs[..i - 1])|));
      }
    }
  }

  lemma ReadsEntry(f: string, table: nat, i: nat, pos: nat)
    requires pos < POSITION_LIMIT
    requires At(f, table + 20 * i, XrefEntry(pos))
    ensures ReadEntry(f, table, i) == Some(pos)
  {
    hide Value, Padded;
    var p := table + 20 * i;
    EntryLength(pos);
    ValueOfPadded(pos, 10);
    AtSplit(f, p, Padded(pos, 10), " 00000 n \n");
    assert " 00000 n \n" == " 00000" + " n \n";
    AtSplit(f, p + 10, " 00000", " n \n");
    assert " 00000" == " " + "00000";
    AtSplit(f, p + 10, " ", "00000");
    assert f[p + 10] == f[p + 10..p + 11][0];
    assert AllDigits("00000");
  }

  // ----- the file as a whole -----

  /** Where the cross-reference entries of the file start. */
  function TablePos(data: seq<string>): nat {
    |Body(Objects(data))| + 8 + |Dec(|Objects(data)| + 1)|
  }

  lemma FileSections(data: seq<string>)
    requires |FileText(data)| < POSITION_LIMIT
    ensures var f, objs, x := FileText(data), Objects(data), |Body(Objects(data))|;
            && At(f, 0, Body(objs))
            && At(f, x, "xref\n0 " + (Dec(|objs| + 1) + "\n"))
            && At(f, TablePos(data), XrefEntries(objs, |objs|))
            && At(f, TablePos(data) + 20 * (|objs| + 1), TrailerText(objs, PagesId(|data|) + 1, PagesId(|data|) + 2))
            && |f| == TablePos(data) + 20 * (|objs| + 1) + |TrailerText(objs, PagesId(|data|) + 1, PagesId(|data|) + 2)|
            && x < POSITION_LIMIT
  {
    hide Body, Objects, XrefEntries, TrailerText, Dec, At, PagesId;
    var f, objs := FileText(data), Objects(data);
    var body, xref, trailer := Body(objs), XrefText(objs), TrailerText(objs, PagesId(|data|) + 1, PagesId(|data|) + 2);
    var head := "xref\n0 " + (Dec(|objs| + 1) + "\n");
    assert f == body + xref + trailer;
    assert xref == head + XrefEntries(objs, |objs|);
    hide FileText, XrefText;
    EntriesInTable(objs, |objs|, 1);
    AtWhole(f);
    AtSplit(f, 0, body + xref, trailer);
    AtSplit(f, 0, body, xref);
    AtSplit(f, |body|, head, XrefEntries(objs, |objs|));
  }

  lemma AppendTokens(a: seq<string>, b: seq<string>)
    requires AreTokens(a) && AreTokens(b)
    ensures AreTokens(a + b)
  {
    hide IsToken;
  }

  lemma BracketTokens()
    ensures IsToken("<<") && IsToken(">>") && IsToken("[") && IsToken("]") && IsToken("0") && IsToken("R")
  {}

  lemma KeyTokens()
    ensures IsToken("/Type") && IsToken("/Page") && IsToken("/Parent") && IsToken("/Contents")
  {}

  lemma TreeTokens()
    ensures IsToken("/Pages") && IsToken("/Kids") && IsToken("/Count") && IsToken("/Catalog") && IsToken("/Size")
  {}

  lemma TrailerKeyTokens()
    ensures IsToken("/Root") && IsToken("/Info") && IsToken("/MediaBox") && IsToken("595.28") && IsToken("841.89")
  {}

  lemma ResourceTokens()
    ensures IsToken("/Resources") && IsToken("/Font") && IsToken("/F1") && IsToken("/F2") && IsToken("/F3")
  {}

  lemma SmallNumberTokens()
    ensures IsToken("1") && IsToken("2") && IsToken("3") && IsToken("/Subtype") && IsToken("/Type1")
  {}

  lemma FontTokens()
    ensures IsToken("/BaseFont") && IsToken("/Helvetica") && IsToken("/Helvetica-Bold") && IsToken("/Helvetica-Oblique")
  {}

  lemma InfoTokens()
    ensures IsToken("/Title") && IsToken("(t2c_data") && IsToken("Manual)") && IsToken("/Author")
  {}

  lemma InfoMoreTokens()
    ensures IsToken("(Codex)") && IsToken("/Subject") && IsToken("(Manual") && IsToken("corporativo)")
  {}

  lemma DictLiterals()
    ensures AreTokens(["<<", "/Type", "/Page", "/Parent"]) && AreTokens(["/Contents"]) && AreTokens([">>"])
    ensures AreTokens(["<<", "/Type", "/Pages", "/Kids", "["]) && AreTokens(["]", "/Count"])
    ensures AreTokens(["<<", "/Type", "/Catalog", "/Pages"])
    ensures AreTokens(["<<", "/Size"]) && AreTokens(["/Root"]) && AreTokens(["/Info"])
  {
    hide IsToken;
    BracketTokens();
    KeyTokens();
    TreeTokens();
    TrailerKeyTokens();
  }

  lemma ResourceLiterals()
    ensures AreTokens(MEDIA_BOX) && AreTokens(FONT_RESOURCES)
  {
    hide IsToken;
    BracketTokens();
    TrailerKeyTokens();
    ResourceTokens();
    SmallNumberTokens();
  }

  lemma FontLiterals()
    ensures AreTokens(FontDict("/Helvetica")) && AreTokens(FontDict("/Helvetica-Bold"))
    ensures AreTokens(FontDict("/Helvetica-Oblique")) && AreTokens(INFO_DICT)
  {
    hide IsToken;
    BracketTokens();
    KeyTokens();
    ResourceTokens();
    SmallNumberTokens();
    FontTokens();
    InfoTokens();
    InfoMoreTokens();
  }

  lemma RefTokens(id: nat)
    ensures AreTokens(Ref(id)) && IsToken(Dec(id))
  {
    hide Dec;
    DecIsToken(id);
  }

  lemma PageTokens(pagesId: nat, contentId: nat)
    ensures AreTokens(PageDict(pagesId, contentId))
  {
    hide Ref, AreTokens;
    RefTokens(pagesId);
    RefTokens(contentId);
    DictLiterals();
    ResourceLiterals();
    var a := ["<<", "/Type", "/Page", "/Parent"] + Ref(pagesId);
    AppendTokens(["<<", "/Type", "/Page", "/Parent"], Ref(pagesId));
    AppendTokens(MEDIA_BOX, FONT_RESOURCES);
    var b := a + (MEDIA_BOX + FONT_RESOURCES);
    AppendTokens(a, MEDIA_BOX + FONT_RESOURCES);
    AppendTokens(b, ["/Contents"]);
    AppendTokens(b + ["/Contents"], Ref(contentId));
    AppendTokens(b + ["/Contents"] + Ref(contentId), [">>"]);
  }

  lemma {:induction false} RefsTokens(from: nat, n: nat)
    ensures AreTokens(Refs(from, n))
    decreases n
  {
    hide IsToken, Ref;
    if n > 0 {
      RefTokens(from);
      RefsTokens(from + 1, n - 1);
    }
  }

  lemma PagesTokens(firstPage: nat, n: nat)
    ensures AreTokens(PagesDict(firstPage, n))
  {
    hide IsToken, Dec, Refs;
    RefsTokens(firstPage, n);
    RefTokens(n);
    DictLiterals();
    var open := ["<<", "/Type", "/Pages", "/Kids", "["] + Refs(firstPage, n);
    AppendTokens(["<<", "/Type", "/Pages", "/Kids", "["], Refs(firstPage, n));
    assert ["]", "/Count", Dec(n), ">>"] == ["]", "/Count"] + [Dec(n)] + [">>"];
    AppendTokens(["]", "/Count"], [Dec(n)]);
    AppendTokens(["]", "/Count"] + [Dec(n)], [">>"]);
    AppendTokens(open, ["]", "/Count", Dec(n), ">>"]);
  }

  lemma CatalogTokens(pagesId: nat)
    ensures AreTokens(CatalogDict(pagesId))
  {
    hide IsToken, Ref;
    DictLiterals();
    RefTokens(pagesId);
    AppendTokens(["<<", "/Type", "/Catalog", "/Pages"], Ref(pagesId));
    AppendTokens(["<<", "/Type", "/Catalog", "/Pages"] + Ref(pagesId), [">>"]);
  }

  lemma TrailerTokens(size: nat, catalogId: nat, infoId: nat)
    ensures AreTokens(TrailerDict(size, catalogId, infoId))
  {
    hide IsToken, Ref, Dec;
    DictLiterals();
    RefTokens(size);
    RefTokens(catalogId);
    RefTokens(infoId);
    AppendTokens(["<<", "/Size"], [Dec(size)]);
    AppendTokens(["<<", "/Size"] + [Dec(size)], ["/Root"]);
    assert ["<<", "/Size"] + [Dec(size)] + ["/Root"] == ["<<", "/Size", Dec(size), "/Root"];
    var a := ["<<", "/Size", Dec(size), "/Root"] + Ref(catalogId);
    AppendTokens(["<<", "/Size", Dec(size), "/Root"], Ref(catalogId));
    AppendTokens(a, ["/Info"]);
    AppendTokens(a + ["/Info"], Ref(infoId));
    AppendTokens(a + ["/Info"] + Ref(infoId), [">>"]);
  }

  /** Which object has which number: the number predicted for /Pages before the pages exist is right. */
  lemma ObjectNumbers(data: seq<string>)
    ensures var n, objs := |data|, Objects(data);
            && (forall k :: 0 <= k < n ==> objs[ContentId(k) - 1] == Content(data[k]))
            && (forall k :: 0 <= k < n ==> objs[PageId(n, k) - 1] == Dict(PageDict(PagesId(n), ContentId(k))))
            && objs[PagesId(n) - 1] == Dict(PagesDict(PageId(n, 0), n))
            && objs[PagesId(n)] == Dict(CatalogDict(PagesId(n)))
            && objs[PagesId(n) + 1] == Dict(INFO_DICT)
            && (forall i :: 0 <= i < 3 ==> objs[i] == FONT_OBJECTS[i])
  {
    hide PageDict, PagesDict, CatalogDict, FontDict, Objects;
    var n := |data|;
    forall k | 0 <= k < n
      ensures Objects(data)[ContentId(k) - 1] == Content(data[k])
      ensures Objects(data)[PageId(n, k) - 1] == Dict(PageDict(PagesId(n), ContentId(k)))
    {
      ObjectAt(data, 3 + k);
      ObjectAt(data, 3 + n + k);
    }
    ObjectAt(data, 3 + 2 * n);
    ObjectAt(data, 4 + 2 * n);
    ObjectAt(data, 5 + 2 * n);
    forall i | 0 <= i < 3 ensures Objects(data)[i] == FONT_OBJECTS[i] {
      ObjectAt(data, i);
    }
  }

  lemma ObjectAt(data: seq<string>, i: nat)
    requires i < 2 * |data| + 6
    ensures var n := |data|;
            Objects(data)[i] == if i < 3 then FONT_OBJECTS[i]
                                else if i < 3 + n then Content(data[i - 3])
                                else if i < 3 + 2 * n then Dict(PageDict(PagesId(n), ContentId(i - 3 - n)))
                                else LastObjects(n)[i - 3 - 2 * n]
  {
    hide PageDict, LastObjects, FontDict;
  }

  lemma ObjectsWellFormed(data: seq<string>, i: nat)
    requires i < |Objects(data)|
    ensures WellFormed(Objects(data)[i])
  {
    hide Objects, AreTokens, PageDict, PagesDict, CatalogDict, FontDict, Dec;
    var n := |data|;
    ObjectNumbers(data);
    if i < 3 {
      FontLiterals();
    } else if i < 3 + n {
      assert Objects(data)[i] == Objects(data)[ContentId(i - 3) - 1];
      LengthTokens(|data[i - 3]|);
    } else if i < 3 + 2 * n {
      assert Objects(data)[i] == Objects(data)[PageId(n, i - 3 - n) - 1];
      PageTokens(PagesId(n), ContentId(i - 3 - n));
    } else {
      PagesTokens(PageId(n, 0), n);
      CatalogTokens(PagesId(n));
      FontLiterals();
    }
  }

  /** Entry `id` of the table leads to `id 0 obj`, and what is read there is object `id`, byte for byte. */
  lemma ObjectReadsBack(data: seq<string>, id: nat)
    requires |FileText(data)| < POSITION_LIMIT
    requires 1 <= id <= |Objects(data)|
    ensures var o := Objects(data)[id - 1];
            ReadObject(FileText(data), TablePos(data), id) == Some(Indirect(o.Text(), o.Entries(), o.Stream()))
  {
    hide Objects, ObjectText, XrefEntry, XrefEntries, Body, ReadObjectAt, ReadEntry, FileText;
    var f, objs := FileText(data), Objects(data);
    var p := |Body(objs[..id - 1])|;
    FileSections(data);
    ObjectInBody(objs, id - 1);
    AtWithin(f, 0, Body(objs), p, ObjectText(id, objs[id - 1]));
    EntriesInTable(objs, |objs|, id);
    AtWithin(f, TablePos(data), XrefEntries(objs, |objs|), 20 * id, XrefEntry(p));
    ReadsEntry(f, TablePos(data), id, p);
    ObjectsWellFormed(data, id - 1);
    ReadsObjectText(f, p, id, objs[id - 1]);
  }

  lemma XrefHeaderReadsBack(data: seq<string>)
    requires |FileText(data)| < POSITION_LIMIT
    ensures ReadXrefHeader(FileText(data), |Body(Objects(data))|) == Some((|Objects(data)| + 1, TablePos(data)))
  {
    hide Objects, Body, FileText, XrefEntries, Dec, ReadNat, At, TrailerText;
    var f, objs, x := FileText(data), Objects(data), |Body(Objects(data))|;
    FileSections(data);
    AtSplit(f, x, "xref\n0 ", Dec(|objs| + 1) + "\n");
    ReadsNat(f, x + 7, |objs| + 1, "\n");
    AtSlice(f, x, "xref\n0 ");
  }

  /** The last lines of the file lead to the cross-reference table. */
  lemma StartXrefReadsBack(data: seq<string>)
    requires |FileText(data)| < POSITION_LIMIT
    ensures ReadStartXref(FileText(data)) == Some(|Body(Objects(data))|)
    ensures ReadXrefHeader(FileText(data), |Body(Objects(data))|) == Some((|Objects(data)| + 1, TablePos(data)))
  {
    hide Objects, Body, FileText, XrefEntries, XrefText, Print, Dec, DigitsStart, ReadNat, ReadXrefHeader, Value,
         TrailerDict, At;
    var f, objs, x := FileText(data), Objects(data), |Body(Objects(data))|;
    XrefHeaderReadsBack(data);
    FileSections(data);
    var dict := Print(TrailerDict(|objs| + 1, PagesId(|data|) + 1, PagesId(|data|) + 2));
    var t := TablePos(data) + 20 * (|objs| + 1);
    var front, back := "trailer " + dict + "\n", "startxref\n" + (Dec(x) + "\n%%EOF");
    assert TrailerText(objs, PagesId(|data|) + 1, PagesId(|data|) + 2) == front + back;
    AtSplit(f, t, front, back);
    AtSplit(f, t + |front|, "startxref\n", Dec(x) + "\n%%EOF");
    var p := t + |front| + 10;
    AtSplit(f, p, Dec(x), "\n%%EOF");
    assert "startxref\n" == "startxref" + "\n";
    AtSplit(f, p - 10, "startxref", "\n");
    ReadsNatBackwards(f, p, x);
    AtSlice(f, p, Dec(x));
  }

  lemma ReadsNatBackwards(f: string, p: nat, n: nat)
    requires At(f, p - 1, "\n") && At(f, p, Dec(n))
    ensures DigitsStart(f, p + |Dec(n)|) == p && Value(f[p..p + |Dec(n)|]) == n
  {
    hide DigitsStart, Value;
    var e := p + |Dec(n)|;
    assert f[p - 1] == f[p - 1..p][0];
    forall i | p <= i < e ensures IsDigit(f[i]) {
      assert f[i] == f[p..e][i - p];
    }
    DigitsStartIs(f, p, e);
    ValueOfDec(n);
  }

  lemma TrailerRefs(size: nat, catalogId: nat, infoId: nat)
    ensures var ts := TrailerDict(size, catalogId, infoId);
            NumberOf(ts, "/Size") == Some(size) && RefOf(ts, "/Root") == Some(catalogId)
  {
    hide Dec, Find, NumberOf, RefOf;
    var ts := TrailerDict(size, catalogId, infoId);
    var end := ["/Info"] + Ref(infoId) + [">>"];
    NotAKey("<<", "/Size");
    NumberIs(["<<"], "/Size", size, ["/Root"] + Ref(catalogId) + end);
    assert ts == ["<<"] + ["/Size"] + ([Dec(size)] + (["/Root"] + Ref(catalogId) + end));
    NotAKey("<<", "/Root");
    assert "/Size"[1] != "/Root"[1];
    RefIsNoKey(size, "/Root");
    assert Dec(size) == Ref(size)[0];
    RefIs(["<<", "/Size", Dec(size)], "/Root", catalogId, end);
    assert ts == ["<<", "/Size", Dec(size)] + ["/Root"] + (Ref(catalogId) + end);
  }

  lemma CatalogRefs(pagesId: nat)
    ensures RefOf(CatalogDict(pagesId), "/Pages") == Some(pagesId)
  {
    hide Dec, Find, RefOf;
    NotAKey("<<", "/Pages");
    assert |"/Type"| != |"/Pages"| && |"/Catalog"| != |"/Pages"|;
    RefIs(["<<", "/Type", "/Catalog"], "/Pages", pagesId, [">>"]);
    assert CatalogDict(pagesId) == ["<<", "/Type", "/Catalog"] + ["/Pages"] + (Ref(pagesId) + [">>"]);
  }

  lemma PageRefs(pagesId: nat, contentId: nat)
    ensures RefOf(PageDict(pagesId, contentId), "/Parent") == Some(pagesId)
    ensures RefOf(PageDict(pagesId, contentId), "/Contents") == Some(contentId)
  {
    hide Find, RefOf, Ref;
    var ts, res := PageDict(pagesId, contentId), MEDIA_BOX + FONT_RESOURCES;
    var tail := ["/Contents"] + Ref(contentId) + [">>"];
    NotAKey("<<", "/Parent");
    assert |"/Type"| != |"/Parent"| && |"/Page"| != |"/Parent"|;
    RefIs(["<<", "/Type", "/Page"], "/Parent", pagesId, res + tail);
    assert ts == ["<<", "/Type", "/Page"] + ["/Parent"] + (Ref(pagesId) + (res + tail));
    var before := ["<<", "/Type", "/Page", "/Parent"] + Ref(pagesId) + res;
    RefIsNoKey(pagesId, "/Contents");
    NoContentsKey();
    RefIs(before, "/Contents", contentId, [">>"]);
    assert ts == before + ["/Contents"] + (Ref(contentId) + [">>"]);
  }

  lemma NoContentsKey()
    ensures "/Contents" !in ["<<", "/Type", "/Page", "/Parent"]
    ensures "/Contents" !in MEDIA_BOX + FONT_RESOURCES
  {
    assert |"/Contents"| == 9;
    assert forall i :: 0 <= i < 4 ==> |["<<", "/Type", "/Page", "/Parent"][i]| < 9;
    assert |"/MediaBox"| == 9 && "/MediaBox"[1] == 'M' && "/Contents"[1] == 'C';
    assert forall i :: 1 <= i < |MEDIA_BOX| ==> |MEDIA_BOX[i]| < 9;
    assert |"/Resources"| == 10;
    assert forall i :: 1 <= i < |FONT_RESOURCES| ==> |FONT_RESOURCES[i]| < 9;
  }

  lemma {:induction false} RefsReadBack(before: seq<string>, from: nat, n: nat, after: seq<string>)
    ensures RefsAt(before + Refs(from, n) + (["]"] + after), |before|)
         == Some(seq(n, i requires 0 <= i < n => from + i))
    decreases n
  {
    hide Dec, Value;
    var ts := before + Refs(from, n) + (["]"] + after);
    if n == 0 {
      assert ts[|before|] == "]";
    } else {
      var before1 := before + Ref(from);
      RefsReadBack(before1, from + 1, n - 1, after);
      assert ts == before1 + Refs(from + 1, n - 1) + (["]"] + after);
      assert ts[|before|] == Dec(from) && ts[|before| + 1] == "0" && ts[|before| + 2] == "R";
      NotAKey(Dec(from), "]");
      ValueOfDec(from);
      assert [from] + seq(n - 1, i requires 0 <= i < n - 1 => from + 1 + i)
          == seq(n, i requires 0 <= i < n => from + i);
    }
  }

  function PageIds(n: nat): seq<nat> {
    seq(n, k requires 0 <= k < n => PageId(n, k))
  }

  lemma {:induction false} RefsAreNoKey(from: nat, n: nat, key: string)
    requires key != "" && key[0] == '/'
    ensures key !in Refs(from, n)
    decreases n
  {
    if n > 0 {
      RefIsNoKey(from, key);
      RefsAreNoKey(from + 1, n - 1, key);
    }
  }

  lemma PagesRefs(n: nat)
    ensures RefArrayOf(PagesDict(PageId(n, 0), n), "/Kids") == Some(PageIds(n))
    ensures NumberOf(PagesDict(PageId(n, 0), n), "/Count") == Some(n)
  {
    hide Dec, Find, Refs, RefsAt, NumberOf;
    var from := PageId(n, 0);
    var ts, refs := PagesDict(from, n), Refs(from, n);
    var front := ["<<", "/Type", "/Pages"];
    NotAKey("<<", "/Kids");
    assert "/Type"[1] != "/Kids"[1] && |"/Pages"| != |"/Kids"|;
    var after := ["["] + refs + ["]", "/Count", Dec(n), ">>"];
    ValueAfter(front, "/Kids", after);
    assert ts == front + ["/Kids"] + after;
    var open := ["<<", "/Type", "/Pages", "/Kids", "["];
    RefsReadBack(open, from, n, ["/Count", Dec(n), ">>"]);
    assert ts == open + refs + (["]"] + ["/Count", Dec(n), ">>"]);
    assert seq(n, i requires 0 <= i < n => from + i) == PageIds(n);
    var before := open + refs + ["]"];
    NoCountKey();
    RefsAreNoKey(from, n, "/Count");
    NumberIs(before, "/Count", n, [">>"]);
    assert ts == before + ["/Count"] + ([Dec(n)] + [">>"]);
  }

  lemma NoCountKey()
    ensures "/Count" !in ["<<", "/Type", "/Pages", "/Kids", "["] && "/Count" !in ["]"]
  {
    NotAKey("<<", "/Count");
    NotAKey("[", "/Count");
    NotAKey("]", "/Count");
    assert |"/Count"| == 6 && |"/Type"| == 5 && |"/Kids"| == 5 && "/Pages"[1] != "/Count"[1];
  }

  lemma PageReadsBack(data: seq<string>, k: nat)
    requires |FileText(data)| < POSITION_LIMIT
    requires k < |data|
    ensures ReadPage(FileText(data), TablePos(data), PagesId(|data|), PageId(|data|, k)) == Some(data[k])
  {
    hide FileText, ReadObject, RefOf, Objects, PageDict, Print, Dec, TablePos;
    var n := |data|;
    ObjectNumbers(data);
    ObjectReadsBack(data, PageId(n, k));
    PageRefs(PagesId(n), ContentId(k));
    ObjectReadsBack(data, ContentId(k));
  }

  lemma {:induction false} PagesReadBack(data: seq<string>, k: nat)
    requires |FileText(data)| < POSITION_LIMIT
    requires k <= |data|
    ensures ReadPages(FileText(data), TablePos(data), PagesId(|data|), PageIds(|data|)[k..]) == Some(data[k..])
    decreases |data| - k
  {
    hide FileText, ReadPage, TablePos;
    if k == |data| {
      assert PageIds(|data|)[k..] == [] && data[k..] == [];
    } else {
      assert PageIds(|data|)[k..][0] == PageId(|data|, k);
      PageReadsBack(data, k);
      PagesReadBack(data, k + 1);
      assert PageIds(|data|)[k..][1..] == PageIds(|data|)[k + 1..];
      assert data[k..] == [data[k]] + data[k + 1..];
    }
  }

  /**
   A reader that starts at `startxref` and follows trailer, catalog, page tree and pages recovers exactly the
   content streams, in page order. So the number predicted for the /Pages object, the object numbers in every
   reference, every offset, every /Length and the page count are all right, whatever the streams contain.
   */
  lemma DocumentReadsBack(data: seq<string>)
    requires |FileText(data)| < POSITION_LIMIT
    ensures ReadDocument(FileText(data)) == Some(data)
  {
    var n := |data|;
    hide FileText, ReadObject, ReadPages, ReadDocument, RefOf, RefArrayOf;
    hide NumberOf, Objects, PagesDict, CatalogDict, Print, TablePos;
    TrailerReadsBack(data);
    ObjectNumbers(data);
    ObjectReadsBack(data, PagesId(n) + 1);
    CatalogRefs(PagesId(n));
    ObjectReadsBack(data, PagesId(n));
    PagesRefs(n);
    PagesReadBack(data, 0);
    assert PageIds(n)[0..] == PageIds(n) && data[0..] == data;
  }

  lemma TrailerParts(objs: seq<PdfObject>, catalogId: nat, infoId: nat)
    ensures TrailerText(objs, catalogId, infoId)
         == "trailer " + (Print(TrailerDict(|objs| + 1, catalogId, infoId))
                          + ("\n" + ("startxref\n" + Dec(|Body(objs)|) + "\n%%EOF")))
  {
    hide Print, TrailerDict, Body, Dec;
  }

  lemma TrailerReadsBack(data: seq<string>)
    requires |FileText(data)| < POSITION_LIMIT
    ensures ReadDocument(FileText(data)) == ReadFromRoot(FileText(data), TablePos(data), PagesId(|data|) + 1)
  {
    hide Objects, Body, FileText, XrefEntries, Print, ReadFromRoot, ReadStartXref, ReadXrefHeader, Tokens, LineEnd,
         RefOf, NumberOf, TrailerDict, TrailerText, Dec, IsToken, TablePos, At;
    var f, objs, x := FileText(data), Objects(data), |Body(Objects(data))|;
    var t := TablePos(data) + 20 * (|objs| + 1);
    var dict := TrailerDict(|objs| + 1, PagesId(|data|) + 1, PagesId(|data|) + 2);
    var back := "startxref\n" + Dec(x) + "\n%%EOF";
    FileSections(data);
    StartXrefReadsBack(data);
    TrailerTokens(|objs| + 1, PagesId(|data|) + 1, PagesId(|data|) + 2);
    TrailerRefs(|objs| + 1, PagesId(|data|) + 1, PagesId(|data|) + 2);
    TrailerParts(objs, PagesId(|data|) + 1, PagesId(|data|) + 2);
    AtSplit(f, t, "trailer ", Print(dict) + ("\n" + back));
    ReadsDictLine(f, t + 8, dict, back);
  }
}
