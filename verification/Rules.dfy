/**
 Structured data-quality rules over tables with NULL: how a condition becomes a column expression, what that
 expression is worth on a row in three-valued logic, and which rows a rule flags.
 */
module Rules {
  import opened Results
  import opened Tables
  import opened Counting
  import opened PyStrings
  import opened ColumnNames

  // ----- three-valued logic -----

  datatype Truth = Yes | No | Unknown

  function Not3(a: Truth): Truth {
    match a case Yes => No case No => Yes case Unknown => Unknown
  }

  function And3(a: Truth, b: Truth): Truth {
    if a == No || b == No then No else if a == Yes && b == Yes then Yes else Unknown
  }

  function Or3(a: Truth, b: Truth): Truth {
    if a == Yes || b == Yes then Yes else if a == No && b == No then No else Unknown
  }

  function Truly(b: bool): Truth {
    if b then Yes else No
  }

  // ----- comparisons -----

  datatype Relation = Eq | Ne | Gt | Ge | Lt | Le

  /** A cell as a summand. */
  function NumberOf(c: Cell, env: Env): Option<real> {
    match c
    case Null => None
    case Num(n, _) => Some(n)
    case Text(s) => env.number(s, false)
    case Value(_, _, _) => None
  }

  function TextOf(c: Cell, env: Env): Option<string> {
    match c
    case Null => None
    case Num(n, whole) => Some(env.show(n, whole))
    case Text(s) => Some(s)
    case Value(_, text, _) => Some(text)
  }

  function CompareNumbers(rel: Relation, a: real, b: real): Truth {
    Truly(match rel
          case Eq => a == b case Ne => a != b case Gt => a > b
          case Ge => a >= b case Lt => a < b case Le => a <= b)
  }

  function CompareTexts(rel: Relation, a: string, b: string): Truth {
    Truly(match rel
          case Eq => a == b case Ne => a != b case Gt => TextLess(b, a)
          case Ge => a == b || TextLess(b, a) case Lt => TextLess(a, b) case Le => a == b || TextLess(a, b))
  }

  /** What a cell counts for when it is compared with another: a text is cast to the type of the other. */
  function PlaceAgainst(c: Cell, other: Cell, env: Env): Option<real> {
    match c
    case Null => None
    case Num(n, _) => Some(n)
    case Text(s) => if other.Value? then env.placed(s, other.kind) else env.number(s, other.Num? && other.whole)
    case Value(_, _, place) => Some(place)
  }

  /** SQL comparison: texts among themselves by code point, otherwise by place; NULL and failed casts give NULL. */
  function CompareCells(rel: Relation, a: Cell, b: Cell, env: Env): Truth {
    if a.Text? && b.Text? then CompareTexts(rel, a.s, b.s)
    else match (PlaceAgainst(a, b, env), PlaceAgainst(b, a, env))
      case (Some(x), Some(y)) => CompareNumbers(rel, x, y)
      case _ => Unknown
  }

  /** Whether the elements of a list and the value looked for are all compared as texts. */
  predicate AsTexts(a: Cell, vs: seq<Cell>) {
    a.Text? || exists i :: 0 <= i < |vs| && vs[i].Text?
  }

  function CompareMember(a: Cell, v: Cell, asTexts: bool, env: Env): Truth {
    if !asTexts then CompareCells(Eq, a, v, env)
    else match (TextOf(a, env), TextOf(v, env))
      case (Some(x), Some(y)) => Truly(x == y)
      case _ => Unknown
  }

  /** `a IN (vs)` */
  function MemberOf(a: Cell, vs: seq<Cell>, asTexts: bool, env: Env): Truth {
    if vs == [] then (if a.Null? then Unknown else No)
    else Or3(CompareMember(a, vs[0], asTexts, env), MemberOf(a, vs[1..], asTexts, env))
  }

  // ----- column expressions -----

  datatype TextTest = Holds | Begins | Finishes | Matches

  datatype Expr =
    | IsNull(col: string)
    | CompareTo(rel: Relation, col: string, value: Cell)
    | CompareWith(rel: Relation, col: string, other: string)
    | Like(test: TextTest, col: string, text: string)
    | Member(col: string, vs: seq<Cell>)
    | NotAfterNow(col: string)
    | Not(arg: Expr)
    | And(left: Expr, right: Expr)
    | Or(left: Expr, right: Expr)
    | OrFalse(arg: Expr)  // _safe_valid_expr: coalesce(cast to boolean, false)

  function EvalText(test: TextTest, text: string, arg: string, env: Env): bool {
    match test
    case Holds => Contains(text, arg)
    case Begins => StartsWith(text, arg)
    case Finishes => EndsWith(text, arg)
    case Matches => env.matches(text, arg)
  }

  predicate IsConnective(e: Expr) {
    e.Not? || e.And? || e.Or? || e.OrFalse?
  }

  function EvalTest(e: Expr, r: Row, env: Env): Truth
    requires !IsConnective(e)
  {
    match e
    case IsNull(c) => Truly(At(r, c) == Null)
    case CompareTo(rel, c, v) => CompareCells(rel, At(r, c), v, env)
    case CompareWith(rel, c, d) => CompareCells(rel, At(r, c), At(r, d), env)
    case Like(test, c, arg) =>
      (match TextOf(At(r, c), env)
       case None => Unknown
       case Some(text) => Truly(EvalText(test, text, arg, env)))
    case Member(c, vs) => MemberOf(At(r, c), vs, AsTexts(At(r, c), vs), env)
    case NotAfterNow(c) =>
      match TextOf(At(r, c), env)
      case None => Unknown
      case Some(text) =>
        match env.instant(text)
        case None => Unknown
        case Some(at) => Truly(at <= env.now)
  }

  function Eval(e: Expr, r: Row, env: Env): Truth {
    match e
    case Not(a) => Not3(Eval(a, r, env))
    case And(a, b) => And3(Eval(a, r, env), Eval(b, r, env))
    case Or(a, b) => Or3(Eval(a, r, env), Eval(b, r, env))
    case OrFalse(a) => Truly(Eval(a, r, env) == Yes)
    case _ => EvalTest(e, r, env)
  }

  // ----- analysis -----

  /**
   Whether Spark compares values of two kinds: equal kinds, texts with anything but arrays, and for equality
   booleans with numbers.
   */
  predicate ComparesKinds(rel: Relation, a: Option<Kind>, b: Option<Kind>) {
    match (a, b)
    case (Some(x), Some(y)) =>
      || x == y
      || (x == TextKind && !y.ArrayKind?)
      || (y == TextKind && !x.ArrayKind?)
      || ((rel == Eq || rel == Ne) && {x, y} == {BooleanKind, NumberKind})
    case _ => true
  }

  /**
   Whether a column and the elements of a list have a common type: all one kind, or with a text among them only
   texts, numbers and moments.
   */
  predicate ListsKinds(kind: Kind, vs: seq<Cell>) {
    if kind == TextKind || exists i :: 0 <= i < |vs| && vs[i].Text? then
      ReadsAsText(kind) && forall i :: 0 <= i < |vs| && KindOf(vs[i]).Some? ==> ReadsAsText(KindOf(vs[i]).value)
    else
      forall i :: 0 <= i < |vs| && KindOf(vs[i]).Some? ==> KindOf(vs[i]).value == kind
  }

  predicate ReadsAsText(kind: Kind) {
    kind == TextKind || kind == NumberKind || kind == MomentKind
  }

  /** Whether an expression passes Spark's analysis of types on a table. */
  predicate Analysed(e: Expr, head: Header) {
    match e
    case CompareTo(rel, c, v) => ComparesKinds(rel, Some(head.KindAt(c)), KindOf(v))
    case CompareWith(rel, c, d) => ComparesKinds(rel, Some(head.KindAt(c)), Some(head.KindAt(d)))
    case Member(c, vs) => ListsKinds(head.KindAt(c), vs)
    case Not(a) => Analysed(a, head)
    case And(a, b) => Analysed(a, head) && Analysed(b, head)
    case Or(a, b) => Analysed(a, head) && Analysed(b, head)
    case OrFalse(a) => Analysed(a, head)
    case _ => true
  }

  // ----- conditions -----

  datatype Operator =
    | OpIsNull | OpNotNull | OpEqual | OpNotEqual | OpGreater | OpGreaterOrEqual | OpLess | OpLessOrEqual
    | OpBetween | OpNotBetween | OpContains | OpNotContains | OpStartsWith | OpEndsWith | OpInList | OpNotInList
    | OpFreshness | OpNotFuture | OpMatchesRegex | OpNotMatchesRegex
    | OpColumnGreater | OpColumnLess | OpColumnEqual | OpRequiredWhenOther | OpUnique | OpOther(name: string)

  datatype TimeUnit = Hours | Days | OtherUnit

  /** A condition as the rule builder stores it; an absent field is NULL, the empty list or the empty text. */
  datatype Condition = Condition(column: string, operator: Operator, value: Cell, valueTo: Cell, values: seq<Cell>,
                                 compareColumn: string, timeUnit: TimeUnit)

  /** Python's `str(value)`; of other values JSON has only booleans. */
  function PyStr(v: Cell, env: Env): string {
    match v
    case Null => "None"
    case Num(n, whole) => env.pyText(n, whole)
    case Text(s) => s
    case Value(_, _, place) => if place == 0.0 then "False" else "True"
  }

  /** `value or default` is the default for None, zero, the empty text and False. */
  predicate Falsy(v: Cell) {
    v == Null || (v.Num? && v.n == 0.0) || v == Text("") || (v.Value? && v.place == 0.0)
  }

  function BetweenExpr(c: Condition): Expr {
    And(CompareTo(Ge, c.column, c.value), CompareTo(Le, c.column, c.valueTo))
  }

  function Pattern(v: Cell, env: Env): string {
    Strip(if Falsy(v) then "" else PyStr(v, env))
  }

  /** A blank pattern is refused by the job, one the engine does not accept by the engine. */
  function RegexExpr(c: Condition, env: Env): Result<Expr> {
    var pattern := Pattern(c.value, env);
    if pattern == "" || !env.compiles(pattern) then Err("invalid pattern") else Ok(Like(Matches, c.column, pattern))
  }

  /** `float(value or 0)` */
  function Amount(v: Cell, env: Env): Option<real> {
    if Falsy(v) then Some(0.0)
    else match v
      case Num(n, _) => Some(n)
      case Text(s) => env.pyFloat(s)
      case Value(_, _, place) => Some(place)
  }

  function FreshnessExpr(c: Condition, env: Env): Result<Expr> {
    match Amount(c.value, env)
    case None => Err("could not convert string to float")
    case Some(amount) =>
      if amount <= 0.0 then Err("freshness needs a positive value") else
      var hours := if c.timeUnit == Hours then amount else if c.timeUnit == Days then 24.0 * amount else 0.0;
      Ok(And(Not(IsNull(c.column)), CompareTo(Ge, c.column, Text(env.hoursAgo(hours)))))
  }

  predicate ComparesColumns(op: Operator) {
    op == OpColumnGreater || op == OpColumnLess || op == OpColumnEqual || op == OpRequiredWhenOther
  }

  function ColumnsExpr(c: Condition): Expr
    requires ComparesColumns(c.operator)
  {
    match c.operator
    case OpColumnGreater => CompareWith(Gt, c.column, c.compareColumn)
    case OpColumnLess => CompareWith(Lt, c.column, c.compareColumn)
    case OpColumnEqual => CompareWith(Eq, c.column, c.compareColumn)
    case _ => Or(IsNull(c.compareColumn), Not(IsNull(c.column)))
  }

  /** The expression of a condition by its operator, or the ValueError it raises. */
  function OperatorExpr(c: Condition, env: Env): Result<Expr> {
    match c.operator
    case OpIsNull => Ok(IsNull(c.column))
    case OpNotNull => Ok(Not(IsNull(c.column)))
    case OpEqual => Ok(CompareTo(Eq, c.column, c.value))
    case OpNotEqual => Ok(CompareTo(Ne, c.column, c.value))
    case OpGreater => Ok(CompareTo(Gt, c.column, c.value))
    case OpGreaterOrEqual => Ok(CompareTo(Ge, c.column, c.value))
    case OpLess => Ok(CompareTo(Lt, c.column, c.value))
    case OpLessOrEqual => Ok(CompareTo(Le, c.column, c.value))
    case OpBetween => Ok(BetweenExpr(c))
    case OpNotBetween => Ok(Not(BetweenExpr(c)))
    case OpContains => Ok(Like(Holds, c.column, PyStr(c.value, env)))
    case OpNotContains => Ok(Not(Like(Holds, c.column, PyStr(c.value, env))))
    case OpStartsWith => Ok(Like(Begins, c.column, PyStr(c.value, env)))
    case OpEndsWith => Ok(Like(Finishes, c.column, PyStr(c.value, env)))
    case OpInList => Ok(Member(c.column, c.values))
    case OpNotInList => Ok(Not(Member(c.column, c.values)))
    case OpFreshness => FreshnessExpr(c, env)
    case OpNotFuture => Ok(And(Not(IsNull(c.column)), NotAfterNow(c.column)))
    case OpMatchesRegex => RegexExpr(c, env)
    case OpNotMatchesRegex =>
      (match RegexExpr(c, env) case Ok(e) => Ok(Not(e)) case Err(m) => Err(m))
    case OpColumnGreater => Ok(ColumnsExpr(c))
    case OpColumnLess => Ok(ColumnsExpr(c))
    case OpColumnEqual => Ok(ColumnsExpr(c))
    case OpRequiredWhenOther => Ok(ColumnsExpr(c))
    case OpUnique => Err("operator not supported")
    case OpOther(_) => Err("operator not supported")
  }

  /** A condition with the columns its references mean. */
  function Located(columns: seq<string>, c: Condition): Condition {
    c.(column := Resolve(columns, c.column).GetOr(c.column),
       compareColumn := Resolve(columns, c.compareColumn).GetOr(c.compareColumn))
  }

  /**
   The job looks a name up in the list of columns; Spark then reads it as a reference, which can fail all the same.
   */
  predicate Reaches(columns: seq<string>, name: string) {
    name in columns && Resolve(columns, name).Some?
  }

  /** An expression that passes the analysis, or the exception raised. */
  function Checked(built: Result<Expr>, head: Header): Result<Expr> {
    if built.Ok? && !Analysed(built.value, head) then Err("data type mismatch") else built
  }

  /** What `_build_condition_expr` and Spark's analysis make of a condition: an expression, or the exception raised. */
  function BuildCondition(head: Header, c: Condition, env: Env): Result<Expr> {
    if !Reaches(head.names, c.column) then Err("column not found")
    else if ComparesColumns(c.operator) && !Reaches(head.names, c.compareColumn) then Err("comparison column not found")
    else Checked(OperatorExpr(Located(head.names, c), env), head)
  }

  // ----- complementary operators -----

  /** The operator that asks the opposite question, where there is one. */
  function Opposite(op: Operator): Option<Operator> {
    match op
    case OpIsNull => Some(OpNotNull)
    case OpEqual => Some(OpNotEqual)
    case OpGreater => Some(OpLessOrEqual)
    case OpLess => Some(OpGreaterOrEqual)
    case OpBetween => Some(OpNotBetween)
    case OpContains => Some(OpNotContains)
    case OpInList => Some(OpNotInList)
    case OpMatchesRegex => Some(OpNotMatchesRegex)
    case _ => None
  }

  lemma ComparisonsOppose(a: Cell, b: Cell, env: Env)
    ensures CompareCells(Ne, a, b, env) == Not3(CompareCells(Eq, a, b, env))
    ensures CompareCells(Le, a, b, env) == Not3(CompareCells(Gt, a, b, env))
    ensures CompareCells(Ge, a, b, env) == Not3(CompareCells(Lt, a, b, env))
  {
    if a.Text? && b.Text? {
      TextOrderTotal(a.s, b.s);
    }
  }

  lemma OppositesNegate(c: Condition, r: Row, env: Env)
    requires Opposite(c.operator).Some?
    ensures var d := c.(operator := Opposite(c.operator).value);
            var x, y := OperatorExpr(c, env), OperatorExpr(d, env);
            (x.Ok? <==> y.Ok?) && (x.Ok? ==> Eval(y.value, r, env) == Not3(Eval(x.value, r, env)))
  {
    hide CompareCells, MemberOf, EvalText, TextOf, Pattern, PyStr, FreshnessExpr, ColumnsExpr, Not3;
    ComparisonsOppose(At(r, c.column), c.value, env);
    if c.operator == OpIsNull {
      IsNullOpposes(At(r, c.column) == Null);
    }
  }

  lemma OppositesAnalysed(c: Condition, head: Header, env: Env)
    requires Opposite(c.operator).Some? && OperatorExpr(c, env).Ok?
    ensures var d := c.(operator := Opposite(c.operator).value);
            OperatorExpr(d, env).Ok?
            && (Analysed(OperatorExpr(c, env).value, head) <==> Analysed(OperatorExpr(d, env).value, head))
  {
    hide ListsKinds, Pattern, PyStr, FreshnessExpr, ColumnsExpr;
  }

  lemma IsNullOpposes(b: bool)
    ensures Not3(Truly(b)) == Truly(!b)
  {}

  /**
   A condition and its opposite are accepted together, and on every row one is the three-valued negation of
   the other: the row violates exactly one of them, or both when the comparison is NULL, never neither.
   */
  lemma OppositesSplitRows(head: Header, c: Condition, r: Row, env: Env)
    requires Opposite(c.operator).Some?
    ensures var d := c.(operator := Opposite(c.operator).value);
            var x, y := BuildCondition(head, c, env), BuildCondition(head, d, env);
            && (x.Ok? <==> y.Ok?)
            && (x.Ok? ==>
                  && Eval(y.value, r, env) == Not3(Eval(x.value, r, env))
                  && (Doubtful(x.value, r, env) || Doubtful(y.value, r, env))
                  && (Doubtful(x.value, r, env) && Doubtful(y.value, r, env) <==> Eval(x.value, r, env) == Unknown))
  {
    hide OperatorExpr, Eval, Resolve, Analysed;
    var at := Located(head.names, c);
    OppositesNegate(at, r, env);
    if OperatorExpr(at, env).Ok? {
      OppositesAnalysed(at, head, env);
    }
  }

  // ----- rules -----

  /** `_normalize_columns` */
  function NormalizeColumns(cols: seq<string>): seq<string> {
    if cols == [] then [] else
    var k := |cols| - 1;
    NormalizeColumns(cols[..k]) + if Strip(cols[k]) != "" then [Strip(cols[k])] else []
  }

  lemma {:induction false} NormalizeParts(a: seq<string>, b: seq<string>)
    ensures NormalizeColumns(a + b) == NormalizeColumns(a) + NormalizeColumns(b)
  {
    if b == [] {
      assert a + b == a;
    } else {
      var k := |b| - 1;
      NormalizeParts(a, b[..k]);
      assert (a + b)[..|a + b| - 1] == a + b[..k];
    }
  }

  lemma NormalizeStep(front: seq<string>, c: string)
    ensures NormalizeColumns(front + [c]) == NormalizeColumns(front) + if Strip(c) != "" then [Strip(c)] else []
  {
    hide Strip;
    assert (front + [c])[..|front|] == front;
  }

  lemma UnchangedStep(front: seq<string>, c: string)
    requires |NormalizeColumns(front)| <= |front|
    ensures NormalizeColumns(front + [c]) == front + [c] <==> NormalizeColumns(front) == front && Bare(c)
  {
    NormalizeStep(front, c);
    StripIsBare(c);
    hide Strip, NormalizeColumns;
    var n := NormalizeColumns(front);
    if n + (if Strip(c) != "" then [Strip(c)] else []) == front + [c] {
      assert Strip(c) != "";
      assert n == (n + [Strip(c)])[..|n|] == (front + [c])[..|front|] == front;
      assert (n + [Strip(c)])[|n|] == (front + [c])[|front|];
    }
  }

  lemma {:induction false} NormalizedAreBare(cols: seq<string>)
    ensures |NormalizeColumns(cols)| <= |cols|
    ensures forall c :: c in NormalizeColumns(cols) ==> Bare(c)
    ensures NormalizeColumns(cols) == cols <==> forall c :: c in cols ==> Bare(c)
  {
    hide Strip, Bare;
    if cols != [] {
      var front, c := cols[..|cols| - 1], cols[|cols| - 1];
      assert cols == front + [c];
      NormalizedAreBare(front);
      NormalizeStep(front, c);
      UnchangedStep(front, c);
      StripIsBare(c);
    }
  }

  /**
   Normalising leaves names without white space at their ends, each in its place, and drops the blank ones. A
   list is unchanged exactly when it holds only such names, so normalising twice is normalising once.
   */
  lemma NormalizeOnce(a: seq<string>, b: seq<string>)
    ensures NormalizeColumns(a + b) == NormalizeColumns(a) + NormalizeColumns(b)
    ensures forall c :: c in NormalizeColumns(a) ==> Bare(c)
    ensures NormalizeColumns(a) == a <==> forall c :: c in a ==> Bare(c)
    ensures NormalizeColumns(NormalizeColumns(a)) == NormalizeColumns(a)
  {
    hide Bare, NormalizeColumns;
    NormalizeParts(a, b);
    NormalizedAreBare(a);
    NormalizedAreBare(NormalizeColumns(a));
  }

  /** `str(logic or "AND").upper() == "AND"` */
  predicate IsAnd(logic: string) {
    logic == "" || Upper(logic) == "AND"
  }

  datatype Rule = Rule(logic: string, conditions: seq<Condition>, uniqueColumns: seq<string>)

  /** The expressions of all conditions, or the first error among them. */
  function BuildAll(head: Header, cs: seq<Condition>, env: Env): (r: Result<seq<Expr>>)
    ensures r.Ok? ==> |r.value| == |cs|
    ensures r.Ok? ==> forall i :: 0 <= i < |cs| ==> BuildCondition(head, cs[i], env) == Ok(r.value[i])
    ensures r.Err? ==> exists i :: 0 <= i < |cs| && BuildCondition(head, cs[i], env).Err?
  {
    if cs == [] then Ok([]) else
    var k := |cs| - 1;
    match BuildAll(head, cs[..k], env)
    case Err(m) => Err(m)
    case Ok(es) =>
      match BuildCondition(head, cs[k], env)
      case Err(m) => Err(m)
      case Ok(e) => Ok(es + [e])
  }

  /** Whether a condition is anything but definitely true on a row. */
  predicate Doubtful(e: Expr, r: Row, env: Env) {
    Eval(e, r, env) != Yes
  }

  /** Under AND a row is flagged when some condition is doubtful, under OR when all are. */
  predicate Flagged(es: seq<Expr>, conjunctive: bool, r: Row, env: Env) {
    if conjunctive then exists i :: 0 <= i < |es| && Doubtful(es[i], r, env)
    else forall i :: 0 <= i < |es| ==> Doubtful(es[i], r, env)
  }

  /** Rows whose key occurs on another row as well. */
  function DuplicateRows(rows: seq<Row>, cols: seq<string>): seq<Row> {
    Filter(rows, r => multiset(Keys(rows, cols))[Key(r, cols)] > 1)
  }

  /** The names of a uniqueness rule go to Spark unchecked; one that means no column fails in its analysis. */
  function UniqueViolations(t: Table, names: seq<string>): Result<seq<Row>> {
    match ResolveAll(t.columns, names)
    case None => Err("column cannot be resolved")
    case Some(cols) => Ok(DuplicateRows(t.rows, cols))
  }

  predicate AsksUnique(rule: Rule) {
    |rule.conditions| == 1 && rule.conditions[0].operator == OpUnique
  }

  /** The columns a uniqueness rule partitions by: the listed ones, or else the condition's own. */
  function UniqueKey(rule: Rule): seq<string>
    requires AsksUnique(rule)
  {
    var cols := NormalizeColumns(rule.uniqueColumns);
    if cols != [] then cols else [rule.conditions[0].column]
  }

  /** What `_violation_dataframe` returns: the rows a rule flags, or the error it raises. */
  function Violations(t: Table, rule: Rule, env: Env): Result<seq<Row>> {
    if rule.conditions == [] then
      var cols := NormalizeColumns(rule.uniqueColumns);
      if cols == [] then Err("the rule has no conditions") else UniqueViolations(t, cols)
    else if AsksUnique(rule) then UniqueViolations(t, UniqueKey(rule))
    else match BuildAll(t.Head(), rule.conditions, env)
      case Err(m) => Err(m)
      case Ok(es) => Ok(Filter(t.rows, r => Flagged(es, IsAnd(rule.logic), r, env)))
  }

  /** The fold of the valid expression, as the loop of `_violation_dataframe` leaves it after `|es|` conditions. */
  ghost predicate FoldMeans(valid: Expr, es: seq<Expr>, conjunctive: bool, env: Env) {
    forall r: Row :: Eval(valid, r, env) == Truly(!Flagged(es, conjunctive, r, env))
  }

  lemma FoldStarts(e: Expr, conjunctive: bool, env: Env)
    ensures FoldMeans(OrFalse(e), [e], conjunctive, env)
  {
    forall r: Row ensures Eval(OrFalse(e), r, env) == Truly(!Flagged([e], conjunctive, r, env)) {
      assert [e][0] == e;
      assert Doubtful(e, r, env) <==> Flagged([e], conjunctive, r, env);
    }
  }

  lemma FoldStep(valid: Expr, es: seq<Expr>, e: Expr, conjunctive: bool, env: Env)
    requires es != [] && FoldMeans(valid, es, conjunctive, env)
    ensures FoldMeans(if conjunctive then And(valid, OrFalse(e)) else Or(valid, OrFalse(e)), es + [e], conjunctive, env)
  {
    var next := if conjunctive then And(valid, OrFalse(e)) else Or(valid, OrFalse(e));
    forall r: Row ensures Eval(next, r, env) == Truly(!Flagged(es + [e], conjunctive, r, env)) {
      FlaggedMore(es, e, conjunctive, r, env);
    }
  }

  lemma FlaggedMore(es: seq<Expr>, e: Expr, conjunctive: bool, r: Row, env: Env)
    ensures Flagged(es + [e], conjunctive, r, env)
       <==> if conjunctive then Flagged(es, conjunctive, r, env) || Doubtful(e, r, env)
            else Flagged(es, conjunctive, r, env) && Doubtful(e, r, env)
  {
    hide Doubtful;
    var all := es + [e];
    assert all[|es|] == e;
    assert forall i :: 0 <= i < |es| ==> all[i] == es[i];
  }

  /** `_violation_dataframe`, with its fold over the conditions. */
  method ViolationRows(t: Table, rule: Rule, env: Env) returns (result: Result<seq<Row>>)
    ensures result == Violations(t, rule, env)
  {
    hide Eval, BuildCondition, Flagged;
    if rule.conditions == [] {
      var cols := NormalizeColumns(rule.uniqueColumns);
      if cols == [] {
        return Err("the rule has no conditions");
      }
      return UniqueViolations(t, cols);
    }
    if AsksUnique(rule) {
      return UniqueViolations(t, UniqueKey(rule));
    }
    var cs := rule.conditions;
    var conjunctive := IsAnd(rule.logic);
    ghost var es := [];
    var valid: Option<Expr> := None;
    for i := 0 to |cs|
      invariant BuildAll(t.Head(), cs[..i], env) == Ok(es) && |es| == i
      invariant valid.None? <==> i == 0
      invariant valid.Some? ==> FoldMeans(valid.value, es, conjunctive, env)
    {
      assert cs[..i + 1][..i] == cs[..i];
      var built := BuildCondition(t.Head(), cs[i], env);
      if built.Err? {
        BuildAllStops(t.Head(), cs, i + 1, env);
        return Err(built.message);
      }
      var e := built.value;
      if valid.None? {
        FoldStarts(e, conjunctive, env);
        assert es + [e] == [e];
        valid := Some(OrFalse(e));
      } else {
        FoldStep(valid.value, es, e, conjunctive, env);
        valid := Some(if conjunctive then And(valid.value, OrFalse(e)) else Or(valid.value, OrFalse(e)));
      }
      es := es + [e];
    }
    assert cs[..|cs|] == cs;
    var keep := valid.value;
    result := Ok(Filter(t.rows, r => Eval(Not(OrFalse(keep)), r, env) == Yes));
    forall r | r in t.rows ensures (Eval(Not(OrFalse(keep)), r, env) == Yes) == Flagged(es, conjunctive, r, env) {
      KeptMeans(keep, es, conjunctive, r, env);
    }
    FilterSame(t.rows, r => Eval(Not(OrFalse(keep)), r, env) == Yes, r => Flagged(es, conjunctive, r, env));
  }

  lemma KeptMeans(valid: Expr, es: seq<Expr>, conjunctive: bool, r: Row, env: Env)
    requires FoldMeans(valid, es, conjunctive, env)
    ensures Eval(Not(OrFalse(valid)), r, env) == Yes <==> Flagged(es, conjunctive, r, env)
  {
    hide Flagged;
  }

  lemma {:induction false} BuildAllStops(head: Header, cs: seq<Condition>, k: nat, env: Env)
    requires k <= |cs| && BuildAll(head, cs[..k], env).Err?
    ensures BuildAll(head, cs, env) == BuildAll(head, cs[..k], env)
  {
    hide BuildCondition;
    if k < |cs| {
      BuildAllStops(head, cs[..|cs| - 1], k, env);
      assert cs[..|cs| - 1][..k] == cs[..k];
    } else {
      assert cs[..k] == cs;
    }
  }

  // ----- order and monotonicity -----

  /** Conditions may be reordered: the same rules are accepted and the same rows flagged. */
  lemma OrderIsIrrelevant(t: Table, logic: string, cs: seq<Condition>, ds: seq<Condition>, cols: seq<string>, env: Env)
    requires multiset(cs) == multiset(ds)
    ensures var x, y := Violations(t, Rule(logic, cs, cols), env), Violations(t, Rule(logic, ds, cols), env);
            (x.Ok? <==> y.Ok?) && (x.Ok? ==> x == y)
  {
    hide BuildCondition, Flagged, UniqueViolations;
    assert |cs| == |multiset(cs)| == |multiset(ds)| == |ds|;
    if |cs| == 1 {
      assert cs[0] in multiset(cs);
      assert cs == ds;
    } else if cs != [] {
      forall c ensures c in cs <==> c in ds {
        assert c in multiset(cs) <==> c in multiset(ds);
      }
      AcceptedIff(t.Head(), cs, env);
      AcceptedIff(t.Head(), ds, env);
      var x, y := BuildAll(t.Head(), cs, env), BuildAll(t.Head(), ds, env);
      if x.Ok? {
        forall r | r in t.rows
          ensures Flagged(x.value, IsAnd(logic), r, env) == Flagged(y.value, IsAnd(logic), r, env)
        {
          FlaggedByConditions(t.Head(), cs, IsAnd(logic), r, env);
          FlaggedByConditions(t.Head(), ds, IsAnd(logic), r, env);
        }
        FilterSame(t.rows, r => Flagged(x.value, IsAnd(logic), r, env), r => Flagged(y.value, IsAnd(logic), r, env));
      }
    }
  }

  lemma AcceptedIff(head: Header, cs: seq<Condition>, env: Env)
    ensures BuildAll(head, cs, env).Ok? <==> forall c :: c in cs ==> BuildCondition(head, c, env).Ok?
  {
    hide BuildCondition;
    if BuildAll(head, cs, env).Err? {
      var i :| 0 <= i < |cs| && BuildCondition(head, cs[i], env).Err?;
      assert cs[i] in cs;
    }
  }

  /** Whether a condition that the table accepts is doubtful on a row. */
  predicate InDoubt(head: Header, c: Condition, r: Row, env: Env) {
    var e := BuildCondition(head, c, env);
    e.Ok? && Doubtful(e.value, r, env)
  }

  lemma FlaggedByConditions(head: Header, cs: seq<Condition>, conjunctive: bool, r: Row, env: Env)
    requires BuildAll(head, cs, env).Ok?
    ensures Flagged(BuildAll(head, cs, env).value, conjunctive, r, env)
       <==> if conjunctive then exists c :: c in cs && InDoubt(head, c, r, env)
            else forall c :: c in cs ==> InDoubt(head, c, r, env)
  {
    hide BuildCondition, Doubtful;
    var es := BuildAll(head, cs, env).value;
    forall i | 0 <= i < |cs| ensures Doubtful(es[i], r, env) <==> InDoubt(head, cs[i], r, env) {}
    if conjunctive {
      if Flagged(es, true, r, env) {
        var i :| 0 <= i < |es| && Doubtful(es[i], r, env);
        assert cs[i] in cs;
      }
    } else if Flagged(es, false, r, env) {
      forall c | c in cs ensures InDoubt(head, c, r, env) {
        var i :| 0 <= i < |cs| && cs[i] == c;
        assert Doubtful(es[i], r, env);
      }
    } else {
      var i :| 0 <= i < |es| && !Doubtful(es[i], r, env);
      assert cs[i] in cs;
    }
  }

  /** The operator `unique` is only understood as a rule's single condition. */
  lemma NotAskedWithOthers(head: Header, cs: seq<Condition>, c: Condition, env: Env)
    requires BuildAll(head, cs + [c], env).Ok?
    ensures forall i :: 0 <= i < |cs| ==> cs[i].operator != OpUnique
  {
    hide BuildCondition, BuildAll;
    AcceptedIff(head, cs + [c], env);
    forall i | 0 <= i < |cs| ensures cs[i].operator != OpUnique {
      assert cs[i] in cs + [c];
      UniqueIsNotBuilt(head, cs[i], env);
    }
  }

  lemma UniqueIsNotBuilt(head: Header, c: Condition, env: Env)
    ensures c.operator == OpUnique ==> BuildCondition(head, c, env).Err?
  {
    hide Resolve;
  }

  /** One more condition can only add violations under AND and only remove them under OR. */
  lemma MoreConditions(t: Table, logic: string, cs: seq<Condition>, c: Condition, cols: seq<string>, env: Env)
    requires cs != []
    requires Violations(t, Rule(logic, cs + [c], cols), env).Ok?
    ensures var x := Violations(t, Rule(logic, cs, cols), env);
            var y := Violations(t, Rule(logic, cs + [c], cols), env).value;
            && x.Ok?
            && (IsAnd(logic) ==> multiset(x.value) <= multiset(y))
            && (!IsAnd(logic) ==> multiset(y) <= multiset(x.value))
  {
    NotAskedWithOthers(t.Head(), cs, c, env);
    hide BuildCondition, Flagged;
    assert (cs + [c])[..|cs|] == cs;
    var es := BuildAll(t.Head(), cs, env).value;
    var more := BuildAll(t.Head(), cs + [c], env).value;
    var e := more[|cs|];
    assert more == es + [e];
    var conj := IsAnd(logic);
    forall r | r in t.rows
      ensures conj && Flagged(es, conj, r, env) ==> Flagged(more, conj, r, env)
      ensures !conj && Flagged(more, conj, r, env) ==> Flagged(es, conj, r, env)
    {
      FlaggedMore(es, e, conj, r, env);
    }
    if conj {
      FilterMonotone(t.rows, r => Flagged(es, conj, r, env), r => Flagged(more, conj, r, env));
    } else {
      FilterMonotone(t.rows, r => Flagged(more, conj, r, env), r => Flagged(es, conj, r, env));
    }
  }
}
