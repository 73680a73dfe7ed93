/** The counts of the profiler, and how they agree with what the rule executor reports on the same table. */
module Profiler {
  import opened Results
  import opened Tables
  import opened Counting
  import opened PyStrings
  import opened ColumnNames
  import Rules

  // ----- counts of one column -----

  /** `sum(when(isNull, 1).otherwise(0))` */
  function NullCount(cells: seq<Cell>): nat {
    if cells == [] then 0 else
    NullCount(cells[..|cells| - 1]) + if cells[|cells| - 1] == Null then 1 else 0
  }

  /** `countDistinct` ignores NULL. */
  function DistinctCount(cells: seq<Cell>): nat {
    |Distinct(cells) - {Null}|
  }

  /** `max(0, row_count - distinct_count)` */
  function DuplicateCount(cells: seq<Cell>): nat {
    if |cells| >= DistinctCount(cells) then |cells| - DistinctCount(cells) else 0
  }

  /** The number of groups of a column, NULLs forming one group where there are any. */
  function GroupCount(cells: seq<Cell>): nat {
    DistinctCount(cells) + if NullCount(cells) > 0 then 1 else 0
  }

  lemma {:induction false} NullCountIff(cells: seq<Cell>)
    ensures NullCount(cells) <= |cells|
    ensures NullCount(cells) > 0 <==> Null in cells
  {
    if cells != [] {
      var k := |cells| - 1;
      NullCountIff(cells[..k]);
      assert cells == cells[..k] + [cells[k]];
    }
  }

  lemma GroupCountIsDistinct(cells: seq<Cell>)
    ensures GroupCount(cells) == |Distinct(cells)|
  {
    NullCountIff(cells);
    if Null in cells {
      assert Distinct(cells) == (Distinct(cells) - {Null}) + {Null};
    } else {
      assert Distinct(cells) - {Null} == Distinct(cells);
    }
  }

  /**
   A column's duplicate count is the rows in excess of one per group, and one more when there are NULLs; it is
   zero exactly when no NULL and no value occurs twice.
   */
  lemma DuplicateCountIs(cells: seq<Cell>)
    ensures DuplicateCount(cells) == |cells| - |Distinct(cells)| + if Null in cells then 1 else 0
    ensures DuplicateCount(cells) == 0 <==> NoDup(cells) && Null !in cells
  {
    hide NoDup, NullCount;
    NullCountIff(cells);
    GroupCountIsDistinct(cells);
    ExcessBounds(cells);
    DistinctIffInjective(cells);
  }

  // ----- uniqueness -----

  lemma {:induction false} FlaggedAreRepeated(rows: seq<Row>, cols: seq<string>, all: multiset<seq<Cell>>)
    ensures |Filter(rows, r => all[Key(r, cols)] > 1)| == Repeated(Keys(rows, cols), all)
  {
    hide Key;
    if rows != [] {
      var k := |rows| - 1;
      FlaggedAreRepeated(rows[..k], cols, all);
      assert Keys(rows, cols)[..k] == Keys(rows[..k], cols);
    }
  }

  /**
   A uniqueness rule over any columns flags between one and two rows per row in excess of one per key, and
   none exactly when no two rows share a key.
   */
  lemma UniqueFlagsExcess(t: Table, cols: seq<string>)
    ensures var v, excess := |Rules.DuplicateRows(t.rows, cols)|, |t.rows| - |Distinct(Keys(t.rows, cols))|;
            && 0 <= excess <= v <= 2 * excess
            && (v == 0 <==> NoDup(Keys(t.rows, cols)))
  {
    hide Key, Rules.DuplicateRows, Repeated, Distinct, NoDup;
    var ks := Keys(t.rows, cols);
    FlaggedAreDuplicates(t.rows, cols);
    ExcessBounds(ks);
    DistinctIffInjective(ks);
  }

  lemma FlaggedAreDuplicates(rows: seq<Row>, cols: seq<string>)
    ensures |Rules.DuplicateRows(rows, cols)| == Repeated(Keys(rows, cols), multiset(Keys(rows, cols)))
  {
    hide Key, Keys;
    FlaggedAreRepeated(rows, cols, multiset(Keys(rows, cols)));
  }

  lemma SingleColumnKeys(rows: seq<Row>, c: string)
    ensures |Distinct(Keys(rows, [c]))| == |Distinct(Column(rows, c))|
  {
    var ks, cells := Keys(rows, [c]), Column(rows, c);
    CoarserIsFewer(ks, cells, k => if |k| > 0 then k[0] else Null);
    forall i | 0 <= i < |rows| ensures ks[i] == [cells[i]] {}
    CoarserIsFewer(cells, ks, x => [x]);
  }

  /** A count that lies between the rows of a column in excess of one per profiled group and twice as many. */
  predicate MatchesExcess(v: int, cells: seq<Cell>) {
    var excess := |cells| - GroupCount(cells);
    0 <= excess <= v <= 2 * excess && (v == 0 <==> excess == 0)
  }

  /**
   The rule `unique` on a name against the profile: it runs exactly when Spark finds a column for the name, and
   with the excess that the profiled counts of that column give, it flags V rows with excess <= V <= 2 * excess,
   so it passes exactly when the excess is zero.
   */
  lemma UniqueAgreesWithProfile(t: Table, c: string, logic: string, env: Env)
    ensures var v := Rules.Violations(t, Rules.Rule(logic, [NamedCondition(c, Rules.OpUnique)], []), env);
            && (v.Ok? <==> Resolve(t.columns, c).Some?)
            && (v.Ok? ==> MatchesExcess(|v.value|, Column(t.rows, Resolve(t.columns, c).value)))
  {
    hide Resolve, GroupCount, Rules.DuplicateRows, Distinct, Keys;
    ResolveOne(t.columns, c);
    if Resolve(t.columns, c).Some? {
      var d := Resolve(t.columns, c).value;
      GroupCountIsDistinct(Column(t.rows, d));
      SingleColumnKeys(t.rows, d);
      UniqueFlagsExcess(t, [d]);
    }
  }

  lemma ResolveOne(columns: seq<string>, c: string)
    ensures ResolveAll(columns, [c]) == match Resolve(columns, c) case None => None case Some(d) => Some([d])
  {
    hide Resolve;
    var none: seq<string> := [];
    assert [c][..0] == [];
    assert ResolveAll(columns, []) == Some(none);
    if Resolve(columns, c).Some? {
      assert none + [Resolve(columns, c).value] == [Resolve(columns, c).value];
    }
  }

  /** A condition on a column that needs no further operand. */
  function NamedCondition(c: string, op: Rules.Operator): Rules.Condition {
    Rules.Condition(c, op, Null, Null, [], "", Rules.OtherUnit)
  }

  lemma {:induction false} NullRowsCounted(rows: seq<Row>, c: string)
    ensures |Filter(rows, r => At(r, c) == Null)| == NullCount(Column(rows, c))
  {
    if rows != [] {
      var k := |rows| - 1;
      NullRowsCounted(rows[..k], c);
      assert Column(rows, c)[..k] == Column(rows[..k], c);
    }
  }

  /**
   The rule `not_null` runs exactly when the table has the column and Spark finds one for its name, and reports
   exactly the profiled `null_count` of the column found, whatever the rule's logic.
   */
  lemma NotNullReportsNullCount(t: Table, c: string, logic: string, env: Env)
    ensures var v := Rules.Violations(t, Rules.Rule(logic, [NamedCondition(c, Rules.OpNotNull)], []), env);
            && (v.Ok? <==> c in t.columns && Resolve(t.columns, c).Some?)
            && (v.Ok? ==> |v.value| == NullCount(Column(t.rows, Resolve(t.columns, c).value)))
  {
    hide Rules.Flagged, Rules.IsAnd, Resolve;
    var cs := [NamedCondition(c, Rules.OpNotNull)];
    BuildOne(t.Head(), cs[0], env);
    if c in t.columns && Resolve(t.columns, c).Some? {
      var d := Resolve(t.columns, c).value;
      var e := Rules.Not(Rules.IsNull(d));
      var conj := Rules.IsAnd(logic);
      assert Rules.Analysed(Rules.IsNull(d), t.Head());
      assert Rules.BuildCondition(t.Head(), cs[0], env) == Ok(e);
      forall r | r in t.rows ensures Rules.Flagged([e], conj, r, env) == (At(r, d) == Null) {
        FlaggedOne(e, conj, r, env);
        NotNullDoubtful(d, r, env);
      }
      FilterSame(t.rows, r => Rules.Flagged([e], conj, r, env), r => At(r, d) == Null);
      NullRowsCounted(t.rows, d);
    }
  }

  /** Of two columns `a` and "`a`" a rule on the second reads the first: it is accepted, and reports the wrong count. */
  lemma QuotedNameReadsAnother(env: Env)
    ensures var t := Table(["a", "`a`"], map[], [map["a" := Null, "`a`" := Num(1.0, true)]]);
            var v := Rules.Violations(t, Rules.Rule("AND", [NamedCondition("`a`", Rules.OpNotNull)], []), env);
            && Resolve(t.columns, "`a`") == Some("a")
            && v.Ok? && |v.value| == 1 && NullCount(Column(t.rows, "`a`")) == 0
  {
    var t := Table(["a", "`a`"], map[], [map["a" := Null, "`a`" := Num(1.0, true)]]);
    ReadsAnother();
    NotNullReportsNullCount(t, "`a`", "AND", env);
    NullCountOfOne(Column(t.rows, "a"));
    NullCountOfOne(Column(t.rows, "`a`"));
  }

  lemma ReadsAnother()
    ensures Resolve(["a", "`a`"], "`a`") == Some("a")
  {
    var s := "`a`";
    assert s[1..] == "a`" && "a`"[1..] == "`";
    assert Unquoted("`") == Some("");
    assert ['a'] + "" == "a";
    assert Unquoted("a`") == Before('a', Unquoted("`")) == Some("a");
    assert Identifier(s) == Some("a");
    var columns := ["a", s];
    var p := (c: string) => Lower(c) == Lower("a");
    assert columns[..1] == ["a"] && ["a"][..0] == [];
    assert |Lower(s)| == 3 && |Lower("a")| == 1;
    assert Filter(["a"], p) == ["a"];
    assert Filter(columns, p) == ["a"];
  }

  lemma NullCountOfOne(cells: seq<Cell>)
    requires |cells| == 1
    ensures NullCount(cells) == if cells[0] == Null then 1 else 0
  {
    assert NullCount(cells[..0]) == 0;
  }

  lemma NotNullDoubtful(c: string, r: Row, env: Env)
    ensures Rules.Doubtful(Rules.Not(Rules.IsNull(c)), r, env) <==> At(r, c) == Null
  {
    assert Rules.Eval(Rules.IsNull(c), r, env) == Rules.Truly(At(r, c) == Null);
  }

  lemma BuildOne(head: Header, c: Rules.Condition, env: Env)
    ensures var b := Rules.BuildCondition(head, c, env);
            Rules.BuildAll(head, [c], env) == if b.Ok? then Ok([b.value]) else Err(b.message)
  {
    hide Rules.BuildCondition;
    var none: seq<Rules.Expr> := [];
    assert [c][..0] == [];
    assert Rules.BuildAll(head, [], env) == Ok(none);
    var b := Rules.BuildCondition(head, c, env);
    if b.Ok? {
      assert none + [b.value] == [b.value];
    }
  }

  lemma FlaggedOne(e: Rules.Expr, conj: bool, r: Row, env: Env)
    ensures Rules.Flagged([e], conj, r, env) <==> Rules.Doubtful(e, r, env)
  {
    hide Rules.Doubtful;
    var none: seq<Rules.Expr> := [];
    Rules.FlaggedMore(none, e, conj, r, env);
    assert none + [e] == [e];
  }

  // ----- business keys -----

  type KeyColumns = seq<string>

  const NATURAL_KEYS: seq<string> := ["cpf", "cnpj", "email", "documento"]

  const COMBINATIONS: seq<KeyColumns> :=
    [["cliente_id", "proposta_id"], ["cliente_id", "cota_id"], ["grupo_id", "cota_id"], ["proposta_id", "cota_id"],
     ["boleto_id"], ["contract_id"]]

  predicate NamesAKey(c: string) {
    c != "" && (EndsWith(Lower(c), "_id") || Lower(c) in NATURAL_KEYS)
  }

  /** The named combinations all of whose columns the table has. */
  predicate Applies(combo: KeyColumns, columns: seq<string>) {
    forall c :: c in combo ==> c in columns && c != ""
  }

  function SingleKeys(columns: seq<string>): (ks: seq<KeyColumns>)
    ensures forall k :: k in ks ==> |k| == 1 && k[0] in columns
  {
    if columns == [] then [] else
    var n := |columns| - 1;
    SingleKeys(columns[..n]) + if NamesAKey(columns[n]) then [[columns[n]]] else []
  }

  /** What `_business_key_candidates` lists. */
  function Candidates(columns: seq<string>): (ks: seq<KeyColumns>)
    ensures forall k :: k in ks ==> forall c :: c in k ==> c in columns
  {
    hide COMBINATIONS, NamesAKey;
    SingleKeys(columns) + Filter(COMBINATIONS, combo => Applies(combo, columns))
  }

  method BusinessKeyCandidates(columns: seq<string>) returns (candidates: seq<KeyColumns>)
    ensures candidates == Candidates(columns)
  {
    hide NamesAKey, COMBINATIONS, Applies;
    candidates := [];
    for i := 0 to |columns|
      invariant candidates == SingleKeys(columns[..i])
    {
      assert columns[..i + 1][..i] == columns[..i];
      if NamesAKey(columns[i]) {
        candidates := candidates + [[columns[i]]];
      }
    }
    assert columns[..|columns|] == columns;
    var combined := ApplicableCombinations(COMBINATIONS, columns);
    candidates := candidates + combined;
  }

  method ApplicableCombinations(combos: seq<KeyColumns>, columns: seq<string>) returns (found: seq<KeyColumns>)
    ensures found == Filter(combos, combo => Applies(combo, columns))
  {
    hide Applies;
    found := [];
    for i := 0 to |combos|
      invariant found == Filter(combos[..i], combo => Applies(combo, columns))
    {
      assert combos[..i + 1][..i] == combos[..i];
      if Applies(combos[i], columns) {
        found := found + [combos[i]];
      }
    }
    assert combos[..|combos|] == combos;
  }

  /** The first of the longest candidates. */
  predicate IsChosen(best: KeyColumns, candidates: seq<KeyColumns>) {
    exists i :: 0 <= i < |candidates| && candidates[i] == best
             && (forall j :: 0 <= j < |candidates| ==> |candidates[j]| <= |best|)
             && (forall j :: 0 <= j < i ==> |candidates[j]| < |best|)
  }

  /** `df.dropDuplicates(cols)`: one row per key. */
  function ExcessOver(t: Table, cols: seq<string>): (d: nat)
    ensures d == |t.rows| - |Distinct(Keys(t.rows, cols))|
  {
    ExcessBounds(Keys(t.rows, cols));
    |t.rows| - |Distinct(Keys(t.rows, cols))|
  }

  /** `_business_key_duplicate_count`, with the key it chose; zero when there is no candidate. */
  method BusinessKeyDuplicates(t: Table) returns (count: nat, best: KeyColumns)
    ensures Candidates(t.columns) == [] ==> count == 0
    ensures Candidates(t.columns) != [] ==> IsChosen(best, Candidates(t.columns)) && count == ExcessOver(t, best)
  {
    hide Candidates, Keys, Distinct;
    var candidates := BusinessKeyCandidates(t.columns);
    if candidates == [] {
      return 0, [];
    }
    best := candidates[0];
    ghost var at := 0;
    for i := 1 to |candidates|
      invariant 0 <= at < i && candidates[at] == best
      invariant forall j :: 0 <= j < i ==> |candidates[j]| <= |best|
      invariant forall j :: 0 <= j < at ==> |candidates[j]| < |best|
    {
      if |candidates[i]| > |best| {
        best, at := candidates[i], i;
      }
    }
    count := ExcessOver(t, best);
  }

  /** The cell a key of columns `cols` holds for column `c`. */
  function CellOf(cols: seq<string>, k: seq<Cell>, c: string): Cell {
    if cols == [] || k == [] then Null
    else if cols[0] == c then k[0]
    else CellOf(cols[1..], k[1..], c)
  }

  lemma {:induction false} CellOfKey(r: Row, cols: seq<string>, c: string)
    requires c in cols
    ensures CellOf(cols, Key(r, cols), c) == At(r, c)
  {
    if cols[0] != c {
      CellOfKey(r, cols[1..], c);
      assert Key(r, cols)[1..] == Key(r, cols[1..]);
    }
  }

  /** Grouping by fewer columns leaves no more groups. */
  lemma FewerColumnsFewerKeys(rows: seq<Row>, cols: seq<string>, some: seq<string>)
    requires forall c :: c in some ==> c in cols
    ensures |Distinct(Keys(rows, some))| <= |Distinct(Keys(rows, cols))|
  {
    var view := (k: seq<Cell>) => seq(|some|, i requires 0 <= i < |some| => CellOf(cols, k, some[i]));
    forall i | 0 <= i < |rows| ensures Keys(rows, some)[i] == view(Keys(rows, cols)[i]) {
      forall j | 0 <= j < |some| ensures Keys(rows, some)[i][j] == CellOf(cols, Key(rows[i], cols), some[j]) {
        CellOfKey(rows[i], cols, some[j]);
      }
    }
    CoarserIsFewer(Keys(rows, cols), Keys(rows, some), view);
  }

  /** `duplicates_count`: rows in excess of the distinct ones. */
  function DuplicateRowsCount(t: Table): nat {
    ExcessOver(t, t.columns)
  }

  /**
   Full-row duplicates are at most the duplicates of the chosen business key, and those at most the
   duplicate count of each of its columns, NULLs included.
   */
  lemma DuplicateChain(t: Table, best: KeyColumns, c: string)
    requires IsChosen(best, Candidates(t.columns))
    requires c in best
    ensures DuplicateRowsCount(t) <= ExcessOver(t, best) <= DuplicateCount(Column(t.rows, c))
  {
    hide Candidates;
    assert best in Candidates(t.columns);
    FewerColumnsFewerKeys(t.rows, t.columns, best);
    FewerColumnsFewerKeys(t.rows, best, [c]);
    SingleColumnKeys(t.rows, c);
    GroupCountIsDistinct(Column(t.rows, c));
  }
}
