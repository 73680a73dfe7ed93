/** `_reconciliation_result`: two tables compared by row count, sum, keyed count or keyed sum. */
module Reconciliation {
  import opened Results
  import opened Tables
  import opened Counting
  import opened PyStrings
  import opened Decimal
  import opened Sums
  import opened ColumnNames
  import Rules

  datatype Comparison = Comparison(metric: string, keyColumns: seq<string>, column: string,
                                   toleranceAbs: Option<real>, tolerancePct: Option<real>)

  datatype Verdict = Pass | Fail(reason: string)

  /** `str(metric or "count").strip().lower() == "count"` */
  predicate CountsRows(c: Comparison) {
    c.metric == "" || Lower(Strip(c.metric)) == "count"
  }

  /** A given tolerance that a value meets: the unkeyed forms accept a difference that meets either one. */
  predicate Meets(tolerance: Option<real>, x: real) {
    tolerance.Some? && x <= tolerance.value
  }

  function Verdict3(delta: real, pct: real, c: Comparison, reason: string): Verdict {
    if delta == 0.0 || Meets(c.toleranceAbs, Abs(delta)) || Meets(c.tolerancePct, pct) then Pass else Fail(reason)
  }

  function CountVerdict(source: nat, comparison: nat, c: Comparison, reason: string): Verdict {
    var delta := (source - comparison) as real;
    Verdict3(delta, Round2(Abs(delta) / (if comparison > 1 then comparison else 1) as real * 100.0), c, reason)
  }

  // ----- keyed count -----

  type KeyCells = seq<Cell>

  predicate NullFree(k: KeyCells) {
    Null !in k
  }

  /** Keys on which an equality join matches: equal and without NULL. */
  predicate JoinMatch(k: KeyCells, j: KeyCells) {
    k == j && NullFree(k)
  }

  function AntiJoin(a: set<KeyCells>, b: set<KeyCells>): set<KeyCells> {
    set k | k in a && forall j :: j in b ==> !JoinMatch(k, j)
  }

  function KeyedCount(source: Table, comparison: Table, cols: seq<string>, c: Comparison): Verdict {
    var s, t := Distinct(Keys(source.rows, cols)), Distinct(Keys(comparison.rows, cols));
    if |AntiJoin(s, t)| + |AntiJoin(t, s)| > 0 then Fail("keys differ")
    else CountVerdict(|s|, |t|, c, "keyed count out of tolerance")
  }

  lemma AntiJoinEmptyIff(a: set<KeyCells>, b: set<KeyCells>)
    ensures |AntiJoin(a, b)| == 0 <==> forall k :: k in a ==> k in b && NullFree(k)
  {
    if |AntiJoin(a, b)| == 0 {
      forall k | k in a ensures k in b && NullFree(k) {
        assert k !in AntiJoin(a, b);
        var j :| j in b && JoinMatch(k, j);
      }
    }
    if forall k :: k in a ==> k in b && NullFree(k) {
      forall k | k in a ensures k !in AntiJoin(a, b) {
        assert JoinMatch(k, k);
      }
      assert AntiJoin(a, b) == {};
    }
  }

  /** The keys of a table as a set. */
  function KeySet(t: Table, cols: seq<string>): set<KeyCells> {
    Distinct(Keys(t.rows, cols))
  }

  /**
   Keyed count passes exactly when both sides have the same keys and none of them holds a NULL. The two
   distinct counts are then equal, so no tolerance is ever consulted.
   */
  lemma KeyedCountIff(source: Table, comparison: Table, cols: seq<string>, c: Comparison)
    ensures KeyedCount(source, comparison, cols, c).Pass?
       <==> KeySet(source, cols) == KeySet(comparison, cols) && forall k :: k in KeySet(source, cols) ==> NullFree(k)
    ensures forall d: Comparison ::
              KeyedCount(source, comparison, cols, c) == KeyedCount(source, comparison, cols, d)
  {
    var s, t := KeySet(source, cols), KeySet(comparison, cols);
    AntiJoinEmptyIff(s, t);
    AntiJoinEmptyIff(t, s);
    if |AntiJoin(s, t)| + |AntiJoin(t, s)| == 0 {
      assert s == t;
    }
  }

  // ----- sums -----

  /** SQL addition inside `sum`: NULLs are skipped, and a sum of nothing is NULL. */
  function Plus(a: Option<real>, b: Option<real>): Option<real> {
    if a.None? then b else if b.None? then a else Some(a.value + b.value)
  }

  /** `fillna(0.0)` and `float(x or 0.0)` */
  function Filled(a: Option<real>): real {
    a.GetOr(0.0)
  }

  /** The columns summed, one on either side. */
  datatype Summed = Summed(source: string, comparison: string)

  function AmountOf(r: Row, column: string, env: Env): Option<real> {
    Rules.NumberOf(At(r, column), env)
  }

  /** `sum(column)` over the rows with key `k`: the value of `groupBy(...).agg(sum)` at `k`. */
  function GroupSum(rows: seq<Row>, cols: seq<string>, column: string, k: KeyCells, env: Env): Option<real> {
    if rows == [] then None else
    var n := |rows| - 1;
    var before := GroupSum(rows[..n], cols, column, k, env);
    if Key(rows[n], cols) == k then Plus(before, AmountOf(rows[n], column, env)) else before
  }

  function TotalSum(rows: seq<Row>, column: string, env: Env): Option<real> {
    if rows == [] then None else
    var n := |rows| - 1;
    Plus(TotalSum(rows[..n], column, env), AmountOf(rows[n], column, env))
  }

  /** One row of the full outer join of the two groupings, NULL sums filled with zero. */
  datatype Joined = Joined(key: KeyCells, source: real, comparison: real) {
    function Delta(): real {
      source - comparison
    }

    function DeltaPct(): real {
      if comparison == 0.0 then (if source == 0.0 then 0.0 else 100.0) else Abs(Delta()) / Abs(comparison) * 100.0
    }

    /** The keyed form asks for both tolerances, and for neither that is absent. */
    predicate Within(c: Comparison) {
      && (c.toleranceAbs.Some? ==> Abs(Delta()) <= c.toleranceAbs.value)
      && (c.tolerancePct.Some? ==> DeltaPct() <= c.tolerancePct.value)
    }
  }

  /** The groups of a table, by first occurrence, and their filled sums. */
  function Groups(t: Table, cols: seq<string>): (ks: seq<KeyCells>)
    ensures NoDup(ks)
  {
    Uniq(Keys(t.rows, cols))
  }

  function SumAt(rows: seq<Row>, cols: seq<string>, column: string, env: Env): KeyCells -> real {
    k => Filled(GroupSum(rows, cols, column, k, env))
  }

  /** What a join partner contributes: its value where the key matches, nothing where it does not. */
  function Matched(others: seq<KeyCells>, g: KeyCells -> real): KeyCells -> real {
    k => if k in others && NullFree(k) then g(k) else 0.0
  }

  function Leftover(others: seq<KeyCells>, g: KeyCells -> real): KeyCells -> real {
    k => if k in others && NullFree(k) then 0.0 else g(k)
  }

  /** The groups of `a` that find no partner among the groups of `b`. */
  function Unmatched(a: seq<KeyCells>, b: seq<KeyCells>): seq<KeyCells> {
    Filter(a, k => !(k in b && NullFree(k)))
  }

  function LeftRows(ks: seq<KeyCells>, others: seq<KeyCells>, f: KeyCells -> real, g: KeyCells -> real)
    : (r: seq<Joined>)
    ensures |r| == |ks|
    ensures forall i :: 0 <= i < |ks| ==> r[i] == Joined(ks[i], f(ks[i]), Matched(others, g)(ks[i]))
  {
    seq(|ks|, i requires 0 <= i < |ks| => Joined(ks[i], f(ks[i]), Matched(others, g)(ks[i])))
  }

  function RightRows(ks: seq<KeyCells>, g: KeyCells -> real): (r: seq<Joined>)
    ensures |r| == |ks|
    ensures forall i :: 0 <= i < |ks| ==> r[i] == Joined(ks[i], 0.0, g(ks[i]))
  {
    seq(|ks|, i requires 0 <= i < |ks| => Joined(ks[i], 0.0, g(ks[i])))
  }

  /** The full outer join: keys with a NULL never match, so they appear once per side. */
  function OuterJoin(source: Table, comparison: Table, cols: seq<string>, on: Summed, env: Env): seq<Joined> {
    var (a, b) := (Groups(source, cols), Groups(comparison, cols));
    LeftRows(a, b, SumAt(source.rows, cols, on.source, env), SumAt(comparison.rows, cols, on.comparison, env))
    + RightRows(Unmatched(b, a), SumAt(comparison.rows, cols, on.comparison, env))
  }

  function KeyedSum(source: Table, comparison: Table, cols: seq<string>, c: Comparison, on: Summed, env: Env): Verdict {
    if Filter(OuterJoin(source, comparison, cols, on, env), (j: Joined) => !j.Within(c)) == [] then Pass
    else Fail("keyed sum out of tolerance")
  }

  function PlainSum(source: Table, comparison: Table, c: Comparison, on: Summed, env: Env): Verdict {
    var s, t := Filled(TotalSum(source.rows, on.source, env)), Filled(TotalSum(comparison.rows, on.comparison, env));
    var delta := s - t;
    Verdict3(delta, Round2(Abs(delta) / (if Abs(t) > 1.0 then Abs(t) else 1.0) * 100.0), c, "sum out of tolerance")
  }

  /** Selecting, grouping and joining by a key column ask that its name finds that very column. */
  predicate Finds(t: Table, names: seq<string>) {
    forall n :: n in names ==> Resolve(t.columns, n) == Some(n)
  }

  /** The union of the keys that differ, made for the preview whatever is compared, refuses repeated names. */
  predicate NamesDiffer(names: seq<string>) {
    forall i, j :: 0 <= i < j < |names| ==> names[i] != names[j]
  }

  /** Spark sums numbers, and texts cast to numbers. */
  predicate Summable(t: Table, column: string) {
    t.Head().KindAt(column) in {NumberKind, TextKind}
  }

  /** `_reconciliation_result`: the verdict, or the exception raised. */
  function Reconcile(source: Table, comparison: Table, c: Comparison, env: Env): Result<Verdict> {
    var cols := Rules.NormalizeColumns(c.keyColumns);
    if !source.Has(cols) then Err("key columns missing in the source")
    else if !comparison.Has(cols) then Err("key columns missing in the comparison")
    else if CountsRows(c) then
      if cols == [] then Ok(CountVerdict(|source.rows|, |comparison.rows|, c, "count out of tolerance"))
      else if !(Finds(source, cols) && Finds(comparison, cols)) then Err("key columns cannot be resolved")
      else if !NamesDiffer(cols) then Err("repeated key column")
      else Ok(KeyedCount(source, comparison, cols, c))
    else
      var column := Strip(c.column);
      if column == "" then Err("sum needs a numeric column")
      else if column !in source.columns then Err("column not found in the source")
      else if column !in comparison.columns then Err("column not found in the comparison")
      else match (Resolve(source.columns, column), Resolve(comparison.columns, column))
        case (Some(s), Some(t)) =>
          if !(Summable(source, s) && Summable(comparison, t)) then Err("sum of values that are no numbers")
          else if cols == [] then Ok(PlainSum(source, comparison, c, Summed(s, t), env))
          else if Finds(source, cols) && Finds(comparison, cols) then
            Ok(KeyedSum(source, comparison, cols, c, Summed(s, t), env))
          else Err("key columns cannot be resolved")
        case _ => Err("column cannot be resolved")
  }

  // ----- what grouping keeps -----

  lemma FilledPlus(a: Option<real>, b: Option<real>)
    ensures Filled(Plus(a, b)) == Filled(a) + Filled(b)
  {}

  lemma {:induction false} AbsentGroup(rows: seq<Row>, cols: seq<string>, column: string, k: KeyCells, env: Env)
    requires k !in Keys(rows, cols)
    ensures GroupSum(rows, cols, column, k, env) == None
  {
    hide Key;
    if rows != [] {
      var n := |rows| - 1;
      assert Keys(rows, cols)[n] == Key(rows[n], cols);
      assert Keys(rows, cols)[..n] == Keys(rows[..n], cols);
      AbsentGroup(rows[..n], cols, column, k, env);
    }
  }

  /**
   A function that gains `amount` at `x` and nothing elsewhere gains as much in a sum over values that include `x`.
   */
  lemma SumGains(us: seq<KeyCells>, x: KeyCells, amount: real, f: KeyCells -> real, g: KeyCells -> real)
    requires NoDup(us) && x in us
    requires forall k :: k in us ==> f(k) == g(k) + if k == x then amount else 0.0
    ensures SumF(us, f) == SumF(us, g) + amount
  {
    hide NoDup, SumF;
    var h := k => if k == x then amount else 0.0;
    SumAdd(us, f, g, h);
    SumPoint(us, x, h);
  }

  /** A key that occurs for the first time adds nothing to the sums of the rows before. */
  lemma FirstOfItsKey(p: seq<Row>, cols: seq<string>, column: string, x: KeyCells, env: Env)
    ensures SumF(Uniq(Keys(p, cols) + [x]), SumAt(p, cols, column, env))
         == SumF(Uniq(Keys(p, cols)), SumAt(p, cols, column, env))
  {
    hide Key, Keys, GroupSum, SumF, Uniq;
    UniqStep(Keys(p, cols), x);
    if x !in Keys(p, cols) {
      AbsentGroup(p, cols, column, x, env);
      SumStep(Uniq(Keys(p, cols)), x, SumAt(p, cols, column, env));
    }
  }

  lemma GroupGains(rows: seq<Row>, cols: seq<string>, column: string, k: KeyCells, env: Env)
    requires rows != []
    ensures SumAt(rows, cols, column, env)(k)
         == SumAt(rows[..|rows| - 1], cols, column, env)(k)
            + if k == Key(rows[|rows| - 1], cols) then Filled(AmountOf(rows[|rows| - 1], column, env)) else 0.0
  {
    hide Key, AmountOf;
    FilledPlus(GroupSum(rows[..|rows| - 1], cols, column, k, env), AmountOf(rows[|rows| - 1], column, env));
  }

  /** The group sums of a table add up to its total, NULLs and NULL keys included. */
  lemma {:induction false} GroupsAddUp(rows: seq<Row>, cols: seq<string>, column: string, env: Env)
    ensures SumF(Uniq(Keys(rows, cols)), SumAt(rows, cols, column, env)) == Filled(TotalSum(rows, column, env))
  {
    if rows == [] {
      NothingToGroup(cols, column, env);
    } else {
      var n := |rows| - 1;
      var p, x, amount := rows[..n], Key(rows[n], cols), AmountOf(rows[n], column, env);
      assert Keys(rows, cols) == Keys(p, cols) + [x];
      hide AmountOf, Filled, Plus, SumF, Uniq, SumAt, Key, Keys;
      GroupsAddUp(p, cols, column, env);
      FirstOfItsKey(p, cols, column, x, env);
      var us := Uniq(Keys(rows, cols));
      UniqHasSame(Keys(rows, cols), x);
      forall k | k in us
        ensures SumAt(rows, cols, column, env)(k)
             == SumAt(p, cols, column, env)(k) + if k == x then Filled(amount) else 0.0 {
        GroupGains(rows, cols, column, k, env);
      }
      SumGains(us, x, Filled(amount), SumAt(rows, cols, column, env), SumAt(p, cols, column, env));
      FilledPlus(TotalSum(p, column, env), amount);
    }
  }

  lemma NothingToGroup(cols: seq<string>, column: string, env: Env)
    ensures SumF(Uniq(Keys([], cols)), SumAt([], cols, column, env)) == Filled(TotalSum([], column, env))
  {}

  // ----- what joining keeps -----

  function Deltas(js: seq<Joined>): real {
    SumF(js, (j: Joined) => j.Delta())
  }

  lemma {:induction false} LeftDeltas(ks: seq<KeyCells>, others: seq<KeyCells>, f: KeyCells -> real,
                                      g: KeyCells -> real)
    ensures Deltas(LeftRows(ks, others, f, g)) == SumF(ks, f) - SumF(ks, Matched(others, g))
  {
    if ks != [] {
      var n := |ks| - 1;
      LeftDeltas(ks[..n], others, f, g);
      assert LeftRows(ks, others, f, g)[..n] == LeftRows(ks[..n], others, f, g);
    }
  }

  lemma {:induction false} RightDeltas(ks: seq<KeyCells>, g: KeyCells -> real)
    ensures Deltas(RightRows(ks, g)) == -SumF(ks, g)
  {
    if ks != [] {
      var n := |ks| - 1;
      RightDeltas(ks[..n], g);
      assert RightRows(ks, g)[..n] == RightRows(ks[..n], g);
    }
  }

  /** Matched partners summed from the left, plus the unmatched groups of the right, are the whole right side. */
  lemma RightSideIsWhole(a: seq<KeyCells>, b: seq<KeyCells>, g: KeyCells -> real)
    requires NoDup(a) && NoDup(b)
    ensures SumF(a, Matched(b, g)) + SumF(Unmatched(b, a), g) == SumF(b, g)
  {
    MatchedFromEitherSide(a, b, g);
    SumUnmatched(b, a, g);
    SumAdd(b, g, Matched(a, g), Leftover(a, g));
  }

  lemma MatchedFromEitherSide(a: seq<KeyCells>, b: seq<KeyCells>, g: KeyCells -> real)
    requires NoDup(a) && NoDup(b)
    ensures SumF(a, Matched(b, g)) == SumF(b, Matched(a, g))
  {
    hide NullFree, SumF;
    var free := k => if NullFree(k) then g(k) else 0.0;
    SumCommon(a, b, free);
    SumSame(a, Matched(b, g), OnlyIn(b, free));
    SumSame(b, Matched(a, g), OnlyIn(a, free));
  }

  lemma {:induction false} SumUnmatched(s: seq<KeyCells>, others: seq<KeyCells>, g: KeyCells -> real)
    ensures SumF(Unmatched(s, others), g) == SumF(s, Leftover(others, g))
  {
    hide NullFree;
    if s != [] {
      var n := |s| - 1;
      SumUnmatched(s[..n], others, g);
      assert Unmatched(s[..n], others) + [] == Unmatched(s[..n], others);
      SumStep(Unmatched(s[..n], others), s[n], g);
    }
  }

  lemma {:induction false} SumSame(s: seq<KeyCells>, f: KeyCells -> real, g: KeyCells -> real)
    requires forall x :: x in s ==> f(x) == g(x)
    ensures SumF(s, f) == SumF(s, g)
  {
    if s != [] {
      SumSame(s[..|s| - 1], f, g);
    }
  }

  /** The differences of all joined rows add up to the difference of the two whole-table sums. */
  lemma JoinConservesTotals(source: Table, comparison: Table, cols: seq<string>, on: Summed, env: Env)
    ensures Deltas(OuterJoin(source, comparison, cols, on, env))
         == Filled(TotalSum(source.rows, on.source, env)) - Filled(TotalSum(comparison.rows, on.comparison, env))
  {
    hide Filled, GroupSum, TotalSum, Unmatched;
    var a, b := Groups(source, cols), Groups(comparison, cols);
    var f, g := SumAt(source.rows, cols, on.source, env), SumAt(comparison.rows, cols, on.comparison, env);
    var left, right := LeftRows(a, b, f, g), RightRows(Unmatched(b, a), g);
    SumAppend(left, right, (j: Joined) => j.Delta());
    LeftDeltas(a, b, f, g);
    RightDeltas(Unmatched(b, a), g);
    RightSideIsWhole(a, b, g);
    GroupsAddUp(source.rows, cols, on.source, env);
    GroupsAddUp(comparison.rows, cols, on.comparison, env);
  }

  lemma PassMeansWithin(source: Table, comparison: Table, cols: seq<string>, c: Comparison, on: Summed, env: Env)
    ensures KeyedSum(source, comparison, cols, c, on, env).Pass?
       <==> forall j :: j in OuterJoin(source, comparison, cols, on, env) ==> j.Within(c)
  {
    hide OuterJoin;
    var js := OuterJoin(source, comparison, cols, on, env);
    var bad := Filter(js, (j: Joined) => !j.Within(c));
    if bad != [] {
      assert bad[0] in bad;
    }
  }

  /**
   A keyed sum that passes with an absolute tolerance bounds the difference of the whole-table sums by that
   tolerance times the number of joined rows; with tolerance zero the totals agree, and then the unkeyed sum
   passes under any tolerances.
   */
  lemma KeyedSumBoundsTotals(source: Table, comparison: Table, cols: seq<string>, c: Comparison, on: Summed, env: Env)
    requires KeyedSum(source, comparison, cols, c, on, env).Pass?
    requires c.toleranceAbs.Some?
    ensures var n := |OuterJoin(source, comparison, cols, on, env)|;
            var d := Filled(TotalSum(source.rows, on.source, env))
                     - Filled(TotalSum(comparison.rows, on.comparison, env));
            && Abs(d) <= n as real * c.toleranceAbs.value
            && (c.toleranceAbs.value == 0.0 ==>
                  forall e: Comparison :: PlainSum(source, comparison, e, on, env) == Pass)
  {
    hide OuterJoin, Filled, TotalSum;
    var js, t := OuterJoin(source, comparison, cols, on, env), c.toleranceAbs.value;
    PassMeansWithin(source, comparison, cols, c, on, env);
    JoinConservesTotals(source, comparison, cols, on, env);
    SumBound(js, (j: Joined) => j.Delta(), t);
    if t == 0.0 {
      assert |js| as real * t == 0.0;
    }
  }

  /** Without tolerances the keyed sum accepts any two tables. */
  lemma NoToleranceAlwaysPasses(source: Table, comparison: Table, cols: seq<string>, c: Comparison, on: Summed,
                                env: Env)
    requires c.toleranceAbs.None? && c.tolerancePct.None?
    ensures KeyedSum(source, comparison, cols, c, on, env) == Pass
  {
    PassMeansWithin(source, comparison, cols, c, on, env);
  }

  /** The sum of a key on either side, zero where the side has no such key. */
  function PairAt(source: Table, comparison: Table, cols: seq<string>, on: Summed, k: KeyCells, env: Env): Joined {
    Joined(k, SumAt(source.rows, cols, on.source, env)(k), SumAt(comparison.rows, cols, on.comparison, env)(k))
  }

  /** The rows of the outer join: the pairs of keys without NULL, and the groups of keys with one, each on its own. */
  ghost predicate IsJoined(source: Table, comparison: Table, cols: seq<string>, on: Summed, j: Joined, env: Env) {
    var s, t := KeySet(source, cols), KeySet(comparison, cols);
    if NullFree(j.key) then j.key in s + t && j == PairAt(source, comparison, cols, on, j.key, env)
    else
      || (j.key in s && j == Joined(j.key, SumAt(source.rows, cols, on.source, env)(j.key), 0.0))
      || (j.key in t && j == Joined(j.key, 0.0, SumAt(comparison.rows, cols, on.comparison, env)(j.key)))
  }

  /**
   Whether each key of either side is within the tolerances: a key without NULL with the sums of both sides, a
   missing side counting as zero; a key with a NULL with the sum of each side against zero.
   */
  ghost predicate KeysWithin(source: Table, comparison: Table, cols: seq<string>, c: Comparison, on: Summed, env: Env) {
    var s, t := KeySet(source, cols), KeySet(comparison, cols);
    && (forall k :: k in s + t && NullFree(k) ==> PairAt(source, comparison, cols, on, k, env).Within(c))
    && (forall k :: k in s && !NullFree(k) ==> Joined(k, SumAt(source.rows, cols, on.source, env)(k), 0.0).Within(c))
    && (forall k :: k in t && !NullFree(k) ==>
          Joined(k, 0.0, SumAt(comparison.rows, cols, on.comparison, env)(k)).Within(c))
  }

  /**
   A keyed sum passes exactly when each key is within the tolerances. There is one joined row per key of the
   union, and a second one for each key with a NULL that both sides have.
   */
  lemma KeyedSumIff(source: Table, comparison: Table, cols: seq<string>, c: Comparison, on: Summed, env: Env)
    ensures KeyedSum(source, comparison, cols, c, on, env).Pass? <==> KeysWithin(source, comparison, cols, c, on, env)
    ensures var s, t := KeySet(source, cols), KeySet(comparison, cols);
            |OuterJoin(source, comparison, cols, on, env)| == |s + t| + |set k | k in s * t && !NullFree(k)|
  {
    hide NullFree, KeySet, OuterJoin, KeyedSum, SumAt;
    var s, t := KeySet(source, cols), KeySet(comparison, cols);
    var js := OuterJoin(source, comparison, cols, on, env);
    PassMeansWithin(source, comparison, cols, c, on, env);
    forall j: Joined ensures j in js <==> IsJoined(source, comparison, cols, on, j, env) {
      JoinedMeans(source, comparison, cols, on, j, env);
    }
    forall k | k in s + t && NullFree(k) ensures PairAt(source, comparison, cols, on, k, env) in js {
      assert PairAt(source, comparison, cols, on, k, env).key == k;
    }
    forall k | k in s && !NullFree(k) ensures Joined(k, SumAt(source.rows, cols, on.source, env)(k), 0.0) in js {}
    forall k | k in t && !NullFree(k)
      ensures Joined(k, 0.0, SumAt(comparison.rows, cols, on.comparison, env)(k)) in js
    {}
    JoinSize(source, comparison, cols, on, env);
  }

  lemma GroupsAreKeys(t: Table, cols: seq<string>, k: KeyCells)
    ensures k in Groups(t, cols) <==> k in KeySet(t, cols)
  {
    UniqHasSame(Keys(t.rows, cols), k);
  }

  lemma JoinedMeans(source: Table, comparison: Table, cols: seq<string>, on: Summed, j: Joined, env: Env)
    ensures j in OuterJoin(source, comparison, cols, on, env) <==> IsJoined(source, comparison, cols, on, j, env)
  {
    if j in OuterJoin(source, comparison, cols, on, env) {
      JoinedIsOne(source, comparison, cols, on, j, env);
    }
    if IsJoined(source, comparison, cols, on, j, env) {
      OneIsJoined(source, comparison, cols, on, j, env);
    }
  }

  lemma JoinedIsOne(source: Table, comparison: Table, cols: seq<string>, on: Summed, j: Joined, env: Env)
    requires j in OuterJoin(source, comparison, cols, on, env)
    ensures IsJoined(source, comparison, cols, on, j, env)
  {
    hide NullFree, Groups, KeySet, GroupSum;
    GroupsAreKeys(source, cols, j.key);
    GroupsAreKeys(comparison, cols, j.key);
    if j.key !in KeySet(source, cols) {
      AbsentKey(source, cols, on.source, j.key, env);
    }
    if j.key !in KeySet(comparison, cols) {
      AbsentKey(comparison, cols, on.comparison, j.key, env);
    }
  }

  lemma AbsentKey(t: Table, cols: seq<string>, column: string, k: KeyCells, env: Env)
    requires k !in KeySet(t, cols)
    ensures SumAt(t.rows, cols, column, env)(k) == 0.0
  {
    AbsentGroup(t.rows, cols, column, k, env);
  }

  lemma OneIsJoined(source: Table, comparison: Table, cols: seq<string>, on: Summed, j: Joined, env: Env)
    requires IsJoined(source, comparison, cols, on, j, env)
    ensures j in OuterJoin(source, comparison, cols, on, env)
  {
    hide NullFree, Groups, KeySet, GroupSum;
    var k, a, b := j.key, Groups(source, cols), Groups(comparison, cols);
    var f, g := SumAt(source.rows, cols, on.source, env), SumAt(comparison.rows, cols, on.comparison, env);
    GroupsAreKeys(source, cols, k);
    GroupsAreKeys(comparison, cols, k);
    if k in a && (NullFree(k) || j == Joined(k, f(k), 0.0)) {
      var i :| 0 <= i < |a| && a[i] == k;
      if k !in b {
        AbsentKey(comparison, cols, on.comparison, k, env);
      }
      assert LeftRows(a, b, f, g)[i] == j;
    } else {
      if k !in a {
        AbsentKey(source, cols, on.source, k, env);
      }
      var us := Unmatched(b, a);
      var i :| 0 <= i < |us| && us[i] == k;
      assert RightRows(us, g)[i] == j;
    }
  }

  lemma {:induction false} NoDupSize(s: seq<KeyCells>)
    requires NoDup(s)
    ensures |Distinct(s)| == |s|
  {
    if s != [] {
      var n := |s| - 1;
      NoDupSize(s[..n]);
      DistinctOfMore(s[..n], s[n]);
      assert s == s[..n] + [s[n]];
    }
  }

  lemma {:induction false} FilterNoDup(s: seq<KeyCells>, p: KeyCells -> bool)
    requires NoDup(s)
    ensures NoDup(Filter(s, p))
  {
    if s != [] {
      FilterNoDup(s[..|s| - 1], p);
    }
  }

  lemma UnmatchedKeys(source: Table, comparison: Table, cols: seq<string>)
    ensures var us := Unmatched(Groups(comparison, cols), Groups(source, cols));
            && NoDup(us)
            && Distinct(us) == (KeySet(comparison, cols) - KeySet(source, cols))
                             + set k | k in KeySet(source, cols) * KeySet(comparison, cols) && !NullFree(k)
  {
    hide NullFree, Groups, KeySet, NoDup;
    var a, b := Groups(source, cols), Groups(comparison, cols);
    FilterNoDup(b, k => !(k in a && NullFree(k)));
    forall k ensures k in Distinct(Unmatched(b, a))
                <==> k in KeySet(comparison, cols) && (k in KeySet(source, cols) ==> !NullFree(k)) {
      GroupsAreKeys(source, cols, k);
      GroupsAreKeys(comparison, cols, k);
    }
  }

  lemma GroupCount(t: Table, cols: seq<string>)
    ensures |Groups(t, cols)| == |KeySet(t, cols)|
  {
    hide Groups, KeySet, NoDup;
    NoDupSize(Groups(t, cols));
    forall k ensures k in Distinct(Groups(t, cols)) <==> k in KeySet(t, cols) {
      GroupsAreKeys(t, cols, k);
    }
    assert Distinct(Groups(t, cols)) == KeySet(t, cols);
  }

  lemma UnionSize(s: set<KeyCells>, t: set<KeyCells>, both: set<KeyCells>)
    requires both <= s
    ensures |s| + |(t - s) + both| == |s + t| + |both|
  {
    assert s + t == s + (t - s);
    assert (t - s) !! both && s !! (t - s);
  }

  lemma JoinSize(source: Table, comparison: Table, cols: seq<string>, on: Summed, env: Env)
    ensures var s, t := KeySet(source, cols), KeySet(comparison, cols);
            |OuterJoin(source, comparison, cols, on, env)| == |s + t| + |set k | k in s * t && !NullFree(k)|
  {
    hide NullFree, Groups, KeySet, NoDup, SumAt, Unmatched;
    var s, t := KeySet(source, cols), KeySet(comparison, cols);
    GroupCount(source, cols);
    UnmatchedKeys(source, comparison, cols);
    NoDupSize(Unmatched(Groups(comparison, cols), Groups(source, cols)));
    UnionSize(s, t, set k | k in s * t && !NullFree(k));
  }
}
