/** Slugs for tags and glossary terms: three UPDATEs over the slug column, and the normal form they reach. */
module Slugs {
  import opened Results
  import opened Decimal
  import opened PyStrings
  import opened Counting

  predicate IsAlnum(c: char) {
    'a' <= c <= 'z' || 'A' <= c <= 'Z' || '0' <= c <= '9'
  }

  /** `regexp_replace(s, '[^a-zA-Z0-9]+', '-', 'g')`; `inRun` tells that the run's dash is already out. */
  function DashRuns(s: string, inRun: bool): string {
    if s == "" then ""
    else if IsAlnum(s[0]) then [s[0]] + DashRuns(s[1..], false)
    else (if inRun then "" else "-") + DashRuns(s[1..], true)
  }

  /** `regexp_replace(s, '-{2,}', '-', 'g')` */
  function CollapseDashes(s: string, inRun: bool): string {
    if s == "" then ""
    else if s[0] != '-' then [s[0]] + CollapseDashes(s[1..], false)
    else (if inRun then "" else "-") + CollapseDashes(s[1..], true)
  }

  /** `trim(both c from s)` */
  function TrimBoth(s: string, c: char): string
    decreases |s|
  {
    if s == "" then ""
    else if s[0] == c then TrimBoth(s[1..], c)
    else if s[|s| - 1] == c then TrimBoth(s[..|s| - 1], c)
    else s
  }

  /** The first UPDATE. */
  function Slugged(name: string): string {
    Lower(TrimBoth(CollapseDashes(DashRuns(name, false), false), ' '))
  }

  function Numeral(id: int): string {
    if id < 0 then "-" + Dec(-id) else Dec(id)
  }

  /** `concat(prefix, id)` */
  function Fallback(prefix: string, id: int): string {
    prefix + Numeral(id)
  }

  /** What the first two UPDATEs make of a name: empty when it has no letter or digit. */
  function Core(name: Option<string>): string {
    if name.Some? then TrimBoth(Slugged(name.value), '-') else ""
  }

  /** The slug of a row after all three UPDATEs. */
  function SlugOf(prefix: string, name: Option<string>, id: int): string {
    if Core(name) == "" then Fallback(prefix, id) else Core(name)
  }

  // ----- the normal form -----

  predicate Spelled(c: char) {
    IsAlnum(c) || c == '-'
  }

  /** No two dashes in a row, nothing but letters, digits and dashes. */
  predicate Tidy(s: string) {
    (forall i :: 0 <= i < |s| ==> Spelled(s[i]))
    && forall i :: 0 < i < |s| ==> s[i - 1] != '-' || s[i] != '-'
  }

  /** `[a-z0-9]+(-[a-z0-9]+)*` */
  predicate Normal(s: string) {
    && s != "" && Tidy(s)
    && s[0] != '-' && s[|s| - 1] != '-'
    && forall i :: 0 <= i < |s| ==> !('A' <= s[i] <= 'Z')
  }

  lemma {:induction false} DashRunsTidy(s: string, inRun: bool)
    ensures var d := DashRuns(s, inRun);
            Tidy(d) && (inRun && d != "" ==> d[0] != '-')
  {
    if s != "" {
      DashRunsTidy(s[1..], !IsAlnum(s[0]));
    }
  }

  /** On a tidy text neither replacement changes anything. */
  lemma {:induction false} TidyStays(s: string, inRun: bool)
    requires Tidy(s) && (inRun && s != "" ==> s[0] != '-')
    ensures DashRuns(s, inRun) == s && CollapseDashes(s, inRun) == s
  {
    if s != "" {
      assert Tidy(s[1..]);
      TidyStays(s[1..], s[0] == '-');
      assert [s[0]] + s[1..] == s;
    }
  }

  /** The second, dash-collapsing replacement never has anything to do. */
  lemma SecondReplaceIsIdle(name: string)
    ensures CollapseDashes(DashRuns(name, false), false) == DashRuns(name, false)
  {
    DashRunsTidy(name, false);
    TidyStays(DashRuns(name, false), false);
  }

  lemma {:induction false} TrimLeavesTidy(s: string, c: char)
    requires Tidy(s)
    ensures var t := TrimBoth(s, c);
            && Tidy(t) && (t != "" ==> t[0] != c && t[|t| - 1] != c)
            && (c !in s ==> t == s)
            && forall x :: x in t ==> x in s
    decreases |s|
  {
    if s != "" {
      if s[0] == c {
        TrimLeavesTidy(s[1..], c);
      } else if s[|s| - 1] == c {
        TrimLeavesTidy(s[..|s| - 1], c);
      }
    }
  }

  lemma LowerKeepsTidy(s: string)
    requires Tidy(s)
    ensures Tidy(Lower(s)) && forall i :: 0 <= i < |s| ==> !('A' <= Lower(s)[i] <= 'Z')
    ensures forall i :: 0 <= i < |s| ==> (Lower(s)[i] == '-' <==> s[i] == '-')
  {
    forall i | 0 <= i < |s|
      ensures Spelled(Lower(s)[i]) && !('A' <= Lower(s)[i] <= 'Z') && (Lower(s)[i] == '-' <==> s[i] == '-')
    {
      assert Spelled(s[i]);
    }
  }

  lemma SluggedIsTidy(name: string)
    ensures Tidy(Slugged(name)) && forall c :: c in Slugged(name) ==> !('A' <= c <= 'Z')
  {
    SecondReplaceIsIdle(name);
    DashRunsTidy(name, false);
    TrimLeavesTidy(DashRuns(name, false), ' ');
    LowerKeepsTidy(TrimBoth(DashRuns(name, false), ' '));
  }

  lemma DigitsTidy(prefix: string, id: int)
    requires id > 0 && prefix in {"tag-", "term-"}
    ensures Normal(Fallback(prefix, id))
  {
    hide Dec;
    var s, d := Fallback(prefix, id), Dec(id);
    assert s == prefix + d && AllDigits(d);
    var p := prefix[..|prefix| - 1];
    assert p == "tag" || p == "term";
    forall i | 0 <= i < |s| ensures Spelled(s[i]) && !('A' <= s[i] <= 'Z') && (s[i] == '-' <==> i == |p|) {
      if i >= |prefix| {
        assert s[i] == d[i - |prefix|];
      }
    }
    assert s[|s| - 1] == d[|d| - 1];
  }

  /** Every slug of a row with a positive id is in normal form. */
  lemma SlugIsNormal(prefix: string, name: Option<string>, id: int)
    requires id > 0 && prefix in {"tag-", "term-"}
    ensures Normal(SlugOf(prefix, name, id))
  {
    hide Fallback, Slugged, Tidy, TrimBoth;
    DigitsTidy(prefix, id);
    if name.Some? {
      SluggedIsTidy(name.value);
      TrimLeavesTidy(Slugged(name.value), '-');
      var slug := TrimBoth(Slugged(name.value), '-');
      assert forall i :: 0 <= i < |slug| ==> slug[i] in slug;
    }
  }

  lemma NormalStays(s: string)
    requires Normal(s)
    ensures TrimBoth(Slugged(s), '-') == s
  {
    TidyStays(s, false);
    assert ' ' !in s by {
      assert forall i :: 0 <= i < |s| ==> Spelled(s[i]);
    }
    TrimLeavesTidy(s, ' ');
    assert Lower(s) == s;
  }

  /** The names that are their own slug are exactly the normal forms, so slugging twice is slugging once. */
  lemma FixedPointsAreNormal(prefix: string, name: string, id: int)
    requires id > 0 && prefix in {"tag-", "term-"}
    ensures SlugOf(prefix, Some(name), id) == name <==> Normal(name)
    ensures var slug := SlugOf(prefix, Some(name), id);
            SlugOf(prefix, Some(slug), id) == slug
  {
    hide Fallback, Slugged, Normal, TrimBoth;
    SlugIsNormal(prefix, Some(name), id);
    if Normal(name) {
      NormalStays(name);
      NormalIsNotEmpty(name);
    }
    var slug := SlugOf(prefix, Some(name), id);
    NormalStays(slug);
    NormalIsNotEmpty(slug);
  }

  lemma NormalIsNotEmpty(s: string)
    requires Normal(s)
    ensures s != ""
  {}

  // ----- when slugs are unique -----

  datatype NamedRow = NamedRow(id: int, name: Option<string>, slug: Option<string>)

  function Ids(rows: seq<NamedRow>): (ids: seq<int>)
    ensures |ids| == |rows| && forall i :: 0 <= i < |ids| ==> ids[i] == rows[i].id
  {
    seq(|rows|, i requires 0 <= i < |rows| => rows[i].id)
  }

  function NewSlugs(prefix: string, rows: seq<NamedRow>): (slugs: seq<string>)
    ensures |slugs| == |rows|
    ensures forall i :: 0 <= i < |slugs| ==> slugs[i] == SlugOf(prefix, rows[i].name, rows[i].id)
  {
    seq(|rows|, i requires 0 <= i < |rows| => SlugOf(prefix, rows[i].name, rows[i].id))
  }

  lemma NumeralsDiffer(a: int, b: int)
    requires Numeral(a) == Numeral(b)
    ensures a == b
  {
    hide Dec, Value;
    ValueOfDec(if a < 0 then -a else a);
    ValueOfDec(if b < 0 then -b else b);
    assert a >= 0 ==> IsDigit(Numeral(a)[0]);
    assert b >= 0 ==> IsDigit(Numeral(b)[0]);
    if a < 0 {
      assert Numeral(a)[1..] == Dec(-a) && Numeral(b)[1..] == Dec(-b);
    }
  }

  lemma FallbacksDiffer(prefix: string, a: int, b: int)
    ensures Fallback(prefix, a) == Fallback(prefix, b) <==> a == b
  {
    hide Numeral;
    if Fallback(prefix, a) == Fallback(prefix, b) {
      assert Fallback(prefix, a)[|prefix|..] == Numeral(a) && Fallback(prefix, b)[|prefix|..] == Numeral(b);
      NumeralsDiffer(a, b);
    }
  }

  /** Names that come down to the same text come down to nothing. */
  ghost predicate NamesDiffer(rows: seq<NamedRow>) {
    forall i, j :: 0 <= i < j < |rows| && Core(rows[i].name) == Core(rows[j].name) ==> Core(rows[i].name) == ""
  }

  /** No name comes down to the stand-in of a row whose name comes down to nothing. */
  ghost predicate NoNameStandsIn(prefix: string, rows: seq<NamedRow>) {
    forall i, j :: 0 <= i < |rows| && 0 <= j < |rows| && Core(rows[j].name) == "" ==>
      Core(rows[i].name) != Fallback(prefix, rows[j].id)
  }

  /** Over rows with a key, the slugs differ exactly under those two conditions. */
  lemma SlugsDifferIff(prefix: string, rows: seq<NamedRow>)
    requires prefix != "" && NoDup(Ids(rows))
    ensures NoDup(NewSlugs(prefix, rows)) <==> NamesDiffer(rows) && NoNameStandsIn(prefix, rows)
  {
    hide Core, Fallback;
    var slugs := NewSlugs(prefix, rows);
    forall i, j | 0 <= i < j < |rows|
      ensures slugs[i] == slugs[j] <==>
                || (Core(rows[i].name) == Core(rows[j].name) != "")
                || (Core(rows[i].name) == "" && Core(rows[j].name) == Fallback(prefix, rows[i].id))
                || (Core(rows[j].name) == "" && Core(rows[i].name) == Fallback(prefix, rows[j].id))
    {
      assert Ids(rows)[i] != Ids(rows)[j];
      FallbacksDiffer(prefix, rows[i].id, rows[j].id);
      FallbackIsNotEmpty(prefix, rows[i].id);
      FallbackIsNotEmpty(prefix, rows[j].id);
    }
    if NoDup(slugs) {
      forall i, j | 0 <= i < |rows| && 0 <= j < |rows| && Core(rows[j].name) == ""
        ensures Core(rows[i].name) != Fallback(prefix, rows[j].id) {
        FallbackIsNotEmpty(prefix, rows[j].id);
      }
    }
  }

  lemma FallbackIsNotEmpty(prefix: string, id: int)
    requires prefix != ""
    ensures Fallback(prefix, id) != ""
  {}

  /** A tag that is named like the stand-in of a nameless one: both get the slug `tag-5`. */
  lemma StandInCollides()
    ensures SlugOf("tag-", Some("tag-5"), 1) == SlugOf("tag-", None, 5) == "tag-5"
  {
    hide Slugged, TrimBoth;
    assert Dec(5) == "5";
    NormalStays("tag-5");
  }

  // ----- the UPDATEs -----

  class NamedTable {
    var rows: seq<NamedRow>

    constructor (rows: seq<NamedRow>)
      ensures this.rows == rows
    {
      this.rows := rows;
    }

    /** `UPDATE ... SET slug = ...` for every row. */
    method SetSlugs(f: NamedRow -> Option<string>)
      modifies this
      ensures |rows| == |old(rows)|
      ensures forall i :: 0 <= i < |rows| ==> rows[i] == old(rows)[i].(slug := f(old(rows)[i]))
    {
      var updated := [];
      for i := 0 to |rows|
        invariant rows == old(rows) && |updated| == i
        invariant forall j :: 0 <= j < i ==> updated[j] == rows[j].(slug := f(rows[j]))
      {
        updated := updated + [rows[i].(slug := f(rows[i]))];
      }
      rows := updated;
    }

    /** The three UPDATEs of `upgrade`, in order. */
    method Update(prefix: string)
      modifies this
      ensures |rows| == |old(rows)|
      ensures forall i :: 0 <= i < |rows| ==>
                rows[i] == old(rows)[i].(slug := Some(SlugOf(prefix, old(rows)[i].name, old(rows)[i].id)))
    {
      hide Slugged, TrimBoth, Fallback;
      SetSlugs((r: NamedRow) => if r.name.Some? then Some(Slugged(r.name.value)) else None);
      SetSlugs((r: NamedRow) => if r.slug.Some? then Some(TrimBoth(r.slug.value, '-')) else None);
      SetSlugs((r: NamedRow) => if r.slug.None? || r.slug == Some("") then Some(Fallback(prefix, r.id)) else r.slug);
    }

    /** `ALTER TABLE ... ADD CONSTRAINT ... UNIQUE (slug)`: whether it succeeds. */
    method AddUniqueConstraint() returns (ok: bool)
      ensures ok <==> forall i, j :: 0 <= i < j < |rows| && rows[i].slug.Some? ==> rows[i].slug != rows[j].slug
    {
      ok := forall i, j :: 0 <= i < j < |rows| && rows[i].slug.Some? ==> rows[i].slug != rows[j].slug;
    }

    /**
     `upgrade`: every row gets its slug and nothing else changes, unless two slugs are the same; then the unique
     constraint fails, and the transaction rolls back. It succeeds exactly when names that come down to the same
     text come down to nothing, and none comes down to the stand-in of such a row.
     */
    method Upgrade(prefix: string) returns (ok: bool)
      requires prefix != "" && NoDup(Ids(rows))
      modifies this
      ensures ok <==> NamesDiffer(old(rows)) && NoNameStandsIn(prefix, old(rows))
      ensures ok ==> |rows| == |old(rows)|
      ensures ok ==> forall i :: 0 <= i < |rows| ==>
                rows[i] == old(rows)[i].(slug := Some(SlugOf(prefix, old(rows)[i].name, old(rows)[i].id)))
      ensures !ok ==> rows == old(rows)
    {
      hide SlugOf, NamesDiffer, NoNameStandsIn, Ids;
      SlugsDifferIff(prefix, rows);
      var before := rows;
      Update(prefix);
      assert forall i :: 0 <= i < |rows| ==> rows[i].slug == Some(NewSlugs(prefix, before)[i]);
      ok := AddUniqueConstraint();
      if !ok {
        rows := before;
      }
    }
  }
}
