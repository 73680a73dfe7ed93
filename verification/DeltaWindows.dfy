/** Incremental profiling: the WHERE clause of a watermark window, and how consecutive windows cover a table. */
module DeltaWindows {
  import opened Results
  import opened Tables
  import opened Counting
  import opened PyStrings
  import Profiler

  // ----- the clause -----

  datatype Args = Args(mode: Option<string>, watermarkColumn: Option<string>, windowStart: Option<string>,
                       windowEnd: Option<string>)

  predicate IsNameStart(c: char) {
    'A' <= c <= 'Z' || 'a' <= c <= 'z' || c == '_'
  }

  predicate IsIdentifier(s: string) {
    s != "" && IsNameStart(s[0]) && forall i :: 0 <= i < |s| ==> IsNameStart(s[i]) || '0' <= s[i] <= '9'
  }

  datatype Window = Window(column: string, start: string, end: string)

  /** The stripped parameters, when they ask for a delta window that can be put into a clause safely. */
  function WindowOf(a: Args): Option<Window> {
    var mode := a.mode.GetOr("");
    if mode != "delta" then None else
    var w := Window(Strip(a.watermarkColumn.GetOr("")), Strip(a.windowStart.GetOr("")), Strip(a.windowEnd.GetOr("")));
    if w.column == "" || w.start == "" then None
    else if !IsIdentifier(w.column) then None
    else if '\'' in w.start || '\'' in w.end then None
    else Some(w)
  }

  function After(w: Window): string {
    "\"" + w.column + "\" > '" + w.start + "'"
  }

  function UpTo(w: Window): string {
    " AND \"" + w.column + "\" <= '" + w.end + "'"
  }

  function ClauseText(w: Window): string {
    After(w) + if w.end != "" then UpTo(w) else ""
  }

  /** `_delta_where_clause`: None asks for a full read. */
  function DeltaWhereClause(a: Args): Option<string> {
    match WindowOf(a)
    case None => None
    case Some(w) => Some(ClauseText(w))
  }

  /**
   The text up to the quote `q` and what follows it, as SQL reads a quoted name or a literal without doubled quotes.
   */
  function ReadQuoted(s: string, q: char): Option<(string, string)> {
    if s == "" then None
    else if s[0] == q then Some(("", s[1..]))
    else match ReadQuoted(s[1..], q)
      case None => None
      case Some((text, rest)) => Some(([s[0]] + text, rest))
  }

  function Skip(s: string, t: string): Option<string> {
    if StartsWith(s, t) then Some(s[|t|..]) else None
  }

  /** `"column"` and a comparison with a literal, with what follows. */
  function ReadComparison(s: string, op: string): Option<(string, string, string)> {
    match Skip(s, "\"")
    case None => None
    case Some(s1) =>
      match ReadQuoted(s1, '"')
      case None => None
      case Some((column, s2)) =>
        match Skip(s2, op)
        case None => None
        case Some(s3) =>
          match ReadQuoted(s3, '\'')
          case None => None
          case Some((literal, rest)) => Some((column, literal, rest))
  }

  /** The window a clause stands for: a strict lower bound and, if present, an inclusive upper bound. */
  function ReadClause(s: string): Option<Window> {
    match ReadComparison(s, " > '")
    case None => None
    case Some((column, start, rest)) =>
      if rest == "" then Some(Window(column, start, "")) else
      match Skip(rest, " AND ")
      case None => None
      case Some(rest1) =>
        match ReadComparison(rest1, " <= '")
        case None => None
        case Some((column1, end, rest2)) =>
          if column1 == column && rest2 == "" then Some(Window(column, start, end)) else None
  }

  lemma {:induction false} QuotedReadsBack(text: string, q: char, rest: string)
    requires q !in text
    ensures ReadQuoted(text + [q] + rest, q) == Some((text, rest))
  {
    var s := text + [q] + rest;
    if text == "" {
      assert s[1..] == rest;
    } else {
      QuotedReadsBack(text[1..], q, rest);
      assert s[1..] == text[1..] + [q] + rest;
      assert [s[0]] + text[1..] == text;
    }
  }

  lemma SkipsPrefix(t: string, rest: string)
    ensures Skip(t + rest, t) == Some(rest)
  {
    assert (t + rest)[..|t|] == t && (t + rest)[|t|..] == rest;
  }

  lemma ComparisonReadsBack(column: string, op: string, literal: string, rest: string)
    requires '"' !in column && '\'' !in literal
    ensures ReadComparison("\"" + column + "\"" + op + literal + "'" + rest, op) == Some((column, literal, rest))
  {
    hide ReadQuoted, Skip;
    var s4 := literal + ['\''] + rest;
    var s3 := op + s4;
    var s2 := column + ['"'] + s3;
    assert "\"" + column + "\"" + op + literal + "'" + rest == "\"" + s2;
    SkipsPrefix("\"", s2);
    QuotedReadsBack(column, '"', s3);
    SkipsPrefix(op, s4);
    QuotedReadsBack(literal, '\'', rest);
  }

  lemma WindowReadsBack(w: Window)
    requires '"' !in w.column && '\'' !in w.start && '\'' !in w.end
    ensures ReadClause(ClauseText(w)) == Some(w)
  {
    hide ReadComparison, Skip;
    if w.end == "" {
      ComparisonReadsBack(w.column, " > '", w.start, "");
      assert ClauseText(w) == "\"" + w.column + "\"" + " > '" + w.start + "'" + "";
    } else {
      var second := "\"" + w.column + "\"" + " <= '" + w.end + "'" + "";
      ComparisonReadsBack(w.column, " > '", w.start, " AND " + second);
      ComparisonReadsBack(w.column, " <= '", w.end, "");
      SkipsPrefix(" AND ", second);
      assert ClauseText(w) == "\"" + w.column + "\"" + " > '" + w.start + "'" + (" AND " + second);
    }
  }

  /** The guards are enough: every clause that is built reads back as the window that was asked for. */
  lemma ClauseReadsBack(a: Args)
    requires WindowOf(a).Some?
    ensures DeltaWhereClause(a).Some? && ReadClause(DeltaWhereClause(a).value) == WindowOf(a)
  {
    hide Strip, ReadClause, ClauseText;
    WindowReadsBack(WindowOf(a).value);
  }

  // ----- consecutive windows -----

  /** How the database reads a watermark cell and a bound as instants; a NULL watermark has none. */
  datatype Clock = Clock(mark: Cell -> Option<real>, bound: string -> real)

  /** Whether the database keeps a row under the clause of a window. */
  predicate Selects(w: Window, r: Row, clock: Clock) {
    var m := clock.mark(At(r, w.column));
    m.Some? && clock.bound(w.start) < m.value && (w.end == "" || m.value <= clock.bound(w.end))
  }

  function WindowRows(rows: seq<Row>, w: Window, clock: Clock): seq<Row> {
    Filter(rows, r => Selects(w, r, clock))
  }

  /** Bounds in text form, each later than the one before. */
  predicate Increasing(bounds: seq<string>, clock: Clock) {
    (forall i :: 0 <= i < |bounds| ==> bounds[i] != "")
    && forall i, j :: 0 <= i < j < |bounds| ==> clock.bound(bounds[i]) < clock.bound(bounds[j])
  }

  /** The run of windows from one bound to the next. */
  function Between(column: string, bounds: seq<string>, i: nat): Window
    requires i + 1 < |bounds|
  {
    Window(column, bounds[i], bounds[i + 1])
  }

  function Whole(column: string, bounds: seq<string>): Window
    requires bounds != []
  {
    Window(column, bounds[0], bounds[|bounds| - 1])
  }

  /** Every row of the whole span lies in exactly one window, and no other row lies in any. */
  lemma {:induction false} ExactlyOneWindow(column: string, bounds: seq<string>, r: Row, clock: Clock)
    requires |bounds| >= 2 && Increasing(bounds, clock)
    ensures Selects(Whole(column, bounds), r, clock)
       <==> exists i :: 0 <= i < |bounds| - 1 && Selects(Between(column, bounds, i), r, clock)
    ensures forall i, j :: 0 <= i < j < |bounds| - 1 ==>
              !(Selects(Between(column, bounds, i), r, clock) && Selects(Between(column, bounds, j), r, clock))
  {
    if Selects(Whole(column, bounds), r, clock) {
      var m := clock.mark(At(r, column)).value;
      var i := 0;
      while !(m <= clock.bound(bounds[i + 1]))
        invariant 0 <= i < |bounds| - 1
        invariant clock.bound(bounds[i]) < m
        decreases |bounds| - i
      {
        i := i + 1;
      }
      assert Selects(Between(column, bounds, i), r, clock);
    }
  }

  /** A sum over the windows of a run. */
  function OverWindows(bounds: seq<string>, f: nat -> nat): nat {
    if |bounds| < 2 then 0 else OverWindows(bounds[..|bounds| - 1], f) + f(|bounds| - 2)
  }

  lemma {:induction false} FilterSplits(rows: seq<Row>, p: Row -> bool, q: Row -> bool, s: Row -> bool)
    requires forall r :: r in rows ==> (p(r) <==> q(r) || s(r)) && !(q(r) && s(r))
    ensures |Filter(rows, p)| == |Filter(rows, q)| + |Filter(rows, s)|
  {
    if rows != [] {
      FilterSplits(rows[..|rows| - 1], p, q, s);
    }
  }

  /** The rows of a window whose column `c` is NULL. */
  lemma {:induction false} NullsOfFiltered(rows: seq<Row>, p: Row -> bool, c: string)
    ensures Profiler.NullCount(Column(Filter(rows, p), c)) == |Filter(rows, r => p(r) && At(r, c) == Null)|
  {
    if rows != [] {
      var k := |rows| - 1;
      NullsOfFiltered(rows[..k], p, c);
      var before, cells := Filter(rows[..k], p), Column(Filter(rows, p), c);
      if p(rows[k]) {
        assert cells[..|cells| - 1] == Column(before, c);
        assert cells[|cells| - 1] == At(rows[k], c);
      } else {
        assert Filter(rows, p) == before;
      }
    }
  }

  function RowsIn(rows: seq<Row>, column: string, bounds: seq<string>, clock: Clock): nat -> nat {
    (i: nat) => if i + 1 < |bounds| then |WindowRows(rows, Between(column, bounds, i), clock)| else 0
  }

  function NullsIn(rows: seq<Row>, column: string, bounds: seq<string>, clock: Clock, c: string): nat -> nat {
    (i: nat) =>
      if i + 1 >= |bounds| then 0 else
      Profiler.NullCount(Column(WindowRows(rows, Between(column, bounds, i), clock), c))
  }

  function DistinctIn(rows: seq<Row>, column: string, bounds: seq<string>, clock: Clock, c: string): nat -> nat {
    (i: nat) =>
      if i + 1 >= |bounds| then 0 else
      Profiler.DistinctCount(Column(WindowRows(rows, Between(column, bounds, i), clock), c))
  }

  lemma {:induction false} OverSame(bounds: seq<string>, f: nat -> nat, g: nat -> nat)
    requires forall i: nat :: i + 1 < |bounds| ==> f(i) == g(i)
    ensures OverWindows(bounds, f) == OverWindows(bounds, g)
  {
    if |bounds| >= 2 {
      OverSame(bounds[..|bounds| - 1], f, g);
    }
  }

  /** The whole span is the span without its last window, plus that window. */
  lemma LastWindowSplits(rows: seq<Row>, column: string, bounds: seq<string>, clock: Clock, c: string)
    requires |bounds| >= 3 && Increasing(bounds, clock)
    ensures var n := |bounds|;
            var all := WindowRows(rows, Whole(column, bounds), clock);
            var front := WindowRows(rows, Whole(column, bounds[..n - 1]), clock);
            var last := WindowRows(rows, Between(column, bounds, n - 2), clock);
            && |all| == |front| + |last|
            && Profiler.NullCount(Column(all, c))
               == Profiler.NullCount(Column(front, c)) + Profiler.NullCount(Column(last, c))
            && Distinct(Column(all, c)) == Distinct(Column(front, c)) + Distinct(Column(last, c))
  {
    var n := |bounds|;
    var w, v, u := Whole(column, bounds), Whole(column, bounds[..n - 1]), Between(column, bounds, n - 2);
    SplitSelection(column, bounds, clock);
    hide Selects, Increasing, Between, Whole, Profiler.NullCount;
    var p, q, s := r => Selects(w, r, clock), r => Selects(v, r, clock), r => Selects(u, r, clock);
    FilterSplits(rows, p, q, s);
    NullsOfFiltered(rows, p, c);
    NullsOfFiltered(rows, q, c);
    NullsOfFiltered(rows, s, c);
    FilterSplits(rows, r => p(r) && At(r, c) == Null, r => q(r) && At(r, c) == Null, r => s(r) && At(r, c) == Null);
    DistinctUnion(rows, p, q, s, c);
  }

  lemma SplitSelection(column: string, bounds: seq<string>, clock: Clock)
    requires |bounds| >= 3 && Increasing(bounds, clock)
    ensures var n := |bounds|;
            var w, v, u := Whole(column, bounds), Whole(column, bounds[..n - 1]), Between(column, bounds, n - 2);
            forall r: Row :: (Selects(w, r, clock) <==> Selects(v, r, clock) || Selects(u, r, clock))
                          && !(Selects(v, r, clock) && Selects(u, r, clock))
  {
    var n := |bounds|;
    assert clock.bound(bounds[0]) < clock.bound(bounds[n - 2]) < clock.bound(bounds[n - 1]);
    assert bounds[0] != "" && bounds[n - 2] != "" && bounds[n - 1] != "";
  }

  lemma CellIn(rows: seq<Row>, p: Row -> bool, c: string, x: Cell)
    ensures x in Distinct(Column(Filter(rows, p), c)) <==> exists r :: r in rows && p(r) && At(r, c) == x
  {
    var kept := Filter(rows, p);
    var cells := Column(kept, c);
    if x in cells {
      var i :| 0 <= i < |cells| && cells[i] == x;
      assert kept[i] in kept;
    }
    if r :| r in rows && p(r) && At(r, c) == x {
      var i :| 0 <= i < |kept| && kept[i] == r;
      assert cells[i] == x;
    }
  }

  lemma DistinctUnion(rows: seq<Row>, p: Row -> bool, q: Row -> bool, s: Row -> bool, c: string)
    requires forall r :: r in rows ==> (p(r) <==> q(r) || s(r))
    ensures Distinct(Column(Filter(rows, p), c))
         == Distinct(Column(Filter(rows, q), c)) + Distinct(Column(Filter(rows, s), c))
  {
    forall x ensures x in Distinct(Column(Filter(rows, p), c))
                <==> x in Distinct(Column(Filter(rows, q), c)) || x in Distinct(Column(Filter(rows, s), c)) {
      CellIn(rows, p, c, x);
      CellIn(rows, q, c, x);
      CellIn(rows, s, c, x);
    }
  }

  lemma UnionSizes(a: set<Cell>, b: set<Cell>)
    ensures |(a + b) - {Null}| <= |a - {Null}| + |b - {Null}|
    ensures |a - {Null}| <= |(a + b) - {Null}| && |b - {Null}| <= |(a + b) - {Null}|
  {
    var x, y := a - {Null}, b - {Null};
    assert (a + b) - {Null} == x + y == x + (y - x);
    SubsetSize(y - x, y);
    SubsetSize(x, x + y);
    SubsetSize(y, x + y);
  }

  lemma SubsetSize(a: set<Cell>, b: set<Cell>)
    requires a <= b
    ensures |a| <= |b|
  {
    assert b == a + (b - a);
  }

  lemma CountsPartition(rows: seq<Row>, column: string, bounds: seq<string>, clock: Clock, c: string)
    requires |bounds| >= 2 && Increasing(bounds, clock)
    ensures var whole := WindowRows(rows, Whole(column, bounds), clock);
            && |whole| == OverWindows(bounds, RowsIn(rows, column, bounds, clock))
            && Profiler.NullCount(Column(whole, c)) == OverWindows(bounds, NullsIn(rows, column, bounds, clock, c))
    decreases |bounds|
  {
    hide WindowRows, Profiler.NullCount, Profiler.DistinctCount, Distinct, Column;
    var n := |bounds|;
    if n == 2 {
      assert Whole(column, bounds) == Between(column, bounds, 0);
    } else {
      var front := bounds[..n - 1];
      CountsPartition(rows, column, front, clock, c);
      LastWindowSplits(rows, column, bounds, clock, c);
      SameWindows(column, bounds);
      OverSame(front, RowsIn(rows, column, bounds, clock), RowsIn(rows, column, front, clock));
      OverSame(front, NullsIn(rows, column, bounds, clock, c), NullsIn(rows, column, front, clock, c));
    }
  }

  lemma SameWindows(column: string, bounds: seq<string>)
    requires |bounds| >= 2
    ensures forall i: nat :: i + 1 < |bounds| - 1 ==>
              Between(column, bounds[..|bounds| - 1], i) == Between(column, bounds, i)
  {}

  lemma DistinctsPartition(rows: seq<Row>, column: string, bounds: seq<string>, clock: Clock, c: string)
    requires |bounds| >= 2 && Increasing(bounds, clock)
    ensures var whole := Profiler.DistinctCount(Column(WindowRows(rows, Whole(column, bounds), clock), c));
            var each := DistinctIn(rows, column, bounds, clock, c);
            whole <= OverWindows(bounds, each) && forall i :: 0 <= i < |bounds| - 1 ==> each(i) <= whole
    decreases |bounds|
  {
    hide WindowRows, Profiler.DistinctCount, Column, Increasing;
    var n := |bounds|;
    if n == 2 {
      assert Whole(column, bounds) == Between(column, bounds, 0);
    } else {
      var front := bounds[..n - 1];
      var h, h1 := DistinctIn(rows, column, bounds, clock, c), DistinctIn(rows, column, front, clock, c);
      FrontIncreases(bounds, clock);
      DistinctsPartition(rows, column, front, clock, c);
      LastDistincts(rows, column, bounds, clock, c);
      SameWindows(column, bounds);
      OverSame(front, h, h1);
      assert forall i :: 0 <= i < n - 2 ==> h(i) == h1(i);
    }
  }

  lemma FrontIncreases(bounds: seq<string>, clock: Clock)
    requires |bounds| >= 2 && Increasing(bounds, clock)
    ensures Increasing(bounds[..|bounds| - 1], clock)
  {}

  lemma LastDistincts(rows: seq<Row>, column: string, bounds: seq<string>, clock: Clock, c: string)
    requires |bounds| >= 3 && Increasing(bounds, clock)
    ensures var n := |bounds|;
            var all := Profiler.DistinctCount(Column(WindowRows(rows, Whole(column, bounds), clock), c));
            var front := Profiler.DistinctCount(Column(WindowRows(rows, Whole(column, bounds[..n - 1]), clock), c));
            var last := Profiler.DistinctCount(Column(WindowRows(rows, Between(column, bounds, n - 2), clock), c));
            all <= front + last && front <= all && last <= all
  {
    hide WindowRows, Distinct, Column, Increasing;
    var n := |bounds|;
    LastWindowSplits(rows, column, bounds, clock, c);
    UnionSizes(Distinct(Column(WindowRows(rows, Whole(column, bounds[..n - 1]), clock), c)),
               Distinct(Column(WindowRows(rows, Between(column, bounds, n - 2), clock), c)));
  }

  /**
   Profiling consecutive windows and profiling their whole span: row counts and null counts add up, and the
   distinct count of the span lies between the largest and the sum of the windows' distinct counts.
   */
  lemma WindowsPartition(rows: seq<Row>, column: string, bounds: seq<string>, clock: Clock, c: string)
    requires |bounds| >= 2 && Increasing(bounds, clock)
    ensures var whole := WindowRows(rows, Whole(column, bounds), clock);
            && |whole| == OverWindows(bounds, RowsIn(rows, column, bounds, clock))
            && Profiler.NullCount(Column(whole, c)) == OverWindows(bounds, NullsIn(rows, column, bounds, clock, c))
            && Profiler.DistinctCount(Column(whole, c))
               <= OverWindows(bounds, DistinctIn(rows, column, bounds, clock, c))
            && forall i :: 0 <= i < |bounds| - 1 ==>
                 DistinctIn(rows, column, bounds, clock, c)(i) <= Profiler.DistinctCount(Column(whole, c))
  {
    hide OverWindows, Profiler.DistinctCount, Profiler.NullCount, RowsIn, NullsIn, DistinctIn;
    CountsPartition(rows, column, bounds, clock, c);
    DistinctsPartition(rows, column, bounds, clock, c);
  }
}
