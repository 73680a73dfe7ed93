/** What each condition operator asks of a row, said without column expressions or three-valued logic. */
module RuleMeaning {
  import opened Results
  import opened Tables
  import opened PyStrings
  import opened ColumnNames
  import opened Rules

  /** Two values SQL can compare: two texts, or two values that have a place beside each other. */
  predicate Comparable(a: Cell, b: Cell, env: Env) {
    (a.Text? && b.Text?) || (PlaceAgainst(a, b, env).Some? && PlaceAgainst(b, a, env).Some?)
  }

  predicate Same(a: Cell, b: Cell, env: Env)
    requires Comparable(a, b, env)
  {
    if a.Text? && b.Text? then a.s == b.s else PlaceAgainst(a, b, env) == PlaceAgainst(b, a, env)
  }

  predicate Below(a: Cell, b: Cell, env: Env)
    requires Comparable(a, b, env)
  {
    if a.Text? && b.Text? then TextLess(a.s, b.s)
    else PlaceAgainst(a, b, env).value < PlaceAgainst(b, a, env).value
  }

  predicate Equals(a: Cell, b: Cell, env: Env) {
    Comparable(a, b, env) && Same(a, b, env)
  }

  predicate Less(a: Cell, b: Cell, env: Env) {
    Comparable(a, b, env) && Below(a, b, env)
  }

  predicate AtMost(a: Cell, b: Cell, env: Env) {
    Equals(a, b, env) || Less(a, b, env)
  }

  /** Whether a value equals an element of a list: as texts where one of them all is a text, otherwise by place. */
  predicate IsMatch(a: Cell, v: Cell, asTexts: bool, env: Env) {
    if asTexts then TextOf(a, env).Some? && TextOf(a, env) == TextOf(v, env) else Equals(a, v, env)
  }

  predicate Differs(a: Cell, v: Cell, asTexts: bool, env: Env) {
    if asTexts then TextOf(a, env).Some? && TextOf(v, env).Some? && TextOf(a, env) != TextOf(v, env)
    else Comparable(a, v, env) && !Same(a, v, env)
  }

  ghost predicate Infix(text: string, part: string) {
    exists front, back :: text == front + part + back
  }

  ghost predicate Prefix(text: string, part: string) {
    exists back :: text == part + back
  }

  ghost predicate Suffix(text: string, part: string) {
    exists front :: text == front + part
  }

  /** When a condition is definitely met by a row, operator by operator. */
  ghost predicate Met(c: Condition, r: Row, env: Env) {
    var x := At(r, c.column);
    var text := TextOf(x, env);
    match c.operator
    case OpIsNull => x == Null
    case OpNotNull => x != Null
    case OpEqual => Equals(x, c.value, env)
    case OpNotEqual => Comparable(x, c.value, env) && !Same(x, c.value, env)
    case OpGreater => Less(c.value, x, env)
    case OpGreaterOrEqual => AtMost(c.value, x, env)
    case OpLess => Less(x, c.value, env)
    case OpLessOrEqual => AtMost(x, c.value, env)
    case OpBetween => AtMost(c.value, x, env) && AtMost(x, c.valueTo, env)
    case OpNotBetween => Less(x, c.value, env) || Less(c.valueTo, x, env)
    case OpContains => text.Some? && Infix(text.value, PyStr(c.value, env))
    case OpNotContains => text.Some? && !Infix(text.value, PyStr(c.value, env))
    case OpStartsWith => text.Some? && Prefix(text.value, PyStr(c.value, env))
    case OpEndsWith => text.Some? && Suffix(text.value, PyStr(c.value, env))
    case OpInList => exists v :: v in c.values && IsMatch(x, v, AsTexts(x, c.values), env)
    case OpNotInList => x != Null && forall v :: v in c.values ==> Differs(x, v, AsTexts(x, c.values), env)
    case OpFreshness =>
      // a time unit other than hours and days leaves the threshold at the current instant
      var hours := match c.timeUnit case Hours => 1.0 case Days => 24.0 case OtherUnit => 0.0;
      Amount(c.value, env).Some? && AtMost(Text(env.hoursAgo(hours * Amount(c.value, env).value)), x, env)
    case OpNotFuture => text.Some? && env.instant(text.value).Some? && env.instant(text.value).value <= env.now
    case OpMatchesRegex => text.Some? && env.matches(text.value, Pattern(c.value, env))
    case OpNotMatchesRegex => text.Some? && !env.matches(text.value, Pattern(c.value, env))
    case OpColumnGreater => Less(At(r, c.compareColumn), x, env)
    case OpColumnLess => Less(x, At(r, c.compareColumn), env)
    case OpColumnEqual => Equals(x, At(r, c.compareColumn), env)
    case OpRequiredWhenOther => At(r, c.compareColumn) == Null || x != Null
    case _ => false
  }

  lemma ComparisonMeans(a: Cell, b: Cell, env: Env)
    ensures CompareCells(Eq, a, b, env) == Yes <==> Equals(a, b, env)
    ensures CompareCells(Eq, a, b, env) == No <==> Comparable(a, b, env) && !Same(a, b, env)
    ensures CompareCells(Ne, a, b, env) == Yes <==> Comparable(a, b, env) && !Same(a, b, env)
    ensures CompareCells(Gt, a, b, env) == Yes <==> Less(b, a, env)
    ensures CompareCells(Ge, a, b, env) == Yes <==> AtMost(b, a, env)
    ensures CompareCells(Ge, a, b, env) == No <==> Less(a, b, env)
    ensures CompareCells(Lt, a, b, env) == Yes <==> Less(a, b, env)
    ensures CompareCells(Le, a, b, env) == Yes <==> AtMost(a, b, env)
    ensures CompareCells(Le, a, b, env) == No <==> Less(b, a, env)
  {
    if a.Text? && b.Text? {
      TextOrderTotal(a.s, b.s);
    }
  }

  lemma MemberMeans(a: Cell, v: Cell, asTexts: bool, env: Env)
    ensures CompareMember(a, v, asTexts, env) == Yes <==> IsMatch(a, v, asTexts, env)
    ensures CompareMember(a, v, asTexts, env) == No <==> Differs(a, v, asTexts, env)
  {
    hide CompareCells, Equals, Comparable, Same, TextOf;
    ComparisonMeans(a, v, env);
  }

  lemma {:induction false} MembershipMeans(a: Cell, vs: seq<Cell>, asTexts: bool, env: Env)
    ensures MemberOf(a, vs, asTexts, env) == Yes <==> exists v :: v in vs && IsMatch(a, v, asTexts, env)
    ensures MemberOf(a, vs, asTexts, env) == No <==> a != Null && forall v :: v in vs ==> Differs(a, v, asTexts, env)
  {
    hide CompareMember, IsMatch, Differs;
    if vs != [] {
      MembershipMeans(a, vs[1..], asTexts, env);
      MemberMeans(a, vs[0], asTexts, env);
      NullDiffersFromNone(a, vs[0], asTexts, env);
      assert vs == [vs[0]] + vs[1..];
    }
  }

  lemma NullDiffersFromNone(a: Cell, v: Cell, asTexts: bool, env: Env)
    ensures Differs(a, v, asTexts, env) ==> a != Null
  {}

  lemma InfixStart(text: string, part: string)
    ensures StartsWith(text, part) ==> Infix(text, part)
    ensures text != "" && Infix(text[1..], part) ==> Infix(text, part)
  {
    if StartsWith(text, part) {
      assert text == "" + part + text[|part|..];
    }
    if text != "" && Infix(text[1..], part) {
      var front, back :| text[1..] == front + part + back;
      assert text == ([text[0]] + front) + part + back;
    }
  }

  lemma InfixFound(text: string, part: string)
    requires Infix(text, part)
    ensures StartsWith(text, part) || (text != "" && Infix(text[1..], part))
  {
    var front, back :| text == front + part + back;
    if front == "" {
      assert text[..|part|] == part;
    } else {
      assert text[1..] == front[1..] + part + back;
    }
  }

  lemma {:induction false} ContainsMeans(text: string, part: string)
    ensures Contains(text, part) <==> Infix(text, part)
  {
    hide Infix, StartsWith;
    InfixStart(text, part);
    if Infix(text, part) {
      InfixFound(text, part);
    }
    if text != "" {
      ContainsMeans(text[1..], part);
    }
  }

  lemma EndsMean(text: string, part: string)
    ensures StartsWith(text, part) <==> Prefix(text, part)
    ensures EndsWith(text, part) <==> Suffix(text, part)
  {
    if StartsWith(text, part) {
      assert text == part + text[|part|..];
    }
    if EndsWith(text, part) {
      assert text == text[..|text| - |part|] + part;
    }
  }

  predicate ComparesWithLiteral(op: Operator) {
    op in {OpEqual, OpNotEqual, OpGreater, OpGreaterOrEqual, OpLess, OpLessOrEqual, OpBetween, OpNotBetween}
  }

  predicate LooksAtText(op: Operator) {
    op in {OpContains, OpNotContains, OpStartsWith, OpEndsWith, OpMatchesRegex, OpNotMatchesRegex}
  }

  lemma BetweenConditionMeans(c: Condition, r: Row, env: Env)
    requires c.operator == OpBetween || c.operator == OpNotBetween
    ensures OperatorExpr(c, env).Ok? && (!Doubtful(OperatorExpr(c, env).value, r, env) <==> Met(c, r, env))
  {
    hide Eval, Less, AtMost, TextOf;
    EvalBetween(c, r, env);
  }

  lemma LiteralConditionMeans(c: Condition, r: Row, env: Env)
    requires ComparesWithLiteral(c.operator)
    ensures OperatorExpr(c, env).Ok? && (!Doubtful(OperatorExpr(c, env).value, r, env) <==> Met(c, r, env))
  {
    if c.operator == OpBetween || c.operator == OpNotBetween {
      BetweenConditionMeans(c, r, env);
    } else {
      hide CompareCells, Equals, Less, AtMost, Same, Comparable, TextOf, BetweenExpr;
      ComparisonMeans(At(r, c.column), c.value, env);
    }
  }

  lemma TextConditionMeans(c: Condition, r: Row, env: Env)
    requires OperatorExpr(c, env).Ok? && LooksAtText(c.operator)
    ensures !Doubtful(OperatorExpr(c, env).value, r, env) <==> Met(c, r, env)
  {
    hide CompareCells, MemberOf, AsTexts, IsMatch, Differs, Equals;
    hide Less, AtMost, Same, Comparable, Infix, Prefix, Suffix;
    hide Contains, StartsWith, EndsWith, Pattern, PyStr, FreshnessExpr;
    var part, pattern := PyStr(c.value, env), Pattern(c.value, env);
    TextMeans(At(r, c.column), part, env);
    EvalNot(Like(Holds, c.column, part), r, env);
    EvalNot(Like(Matches, c.column, pattern), r, env);
  }

  lemma OtherConditionMeans(c: Condition, r: Row, env: Env)
    requires OperatorExpr(c, env).Ok? && !LooksAtText(c.operator) && !ComparesWithLiteral(c.operator)
    requires c.operator != OpFreshness
    ensures !Doubtful(OperatorExpr(c, env).value, r, env) <==> Met(c, r, env)
  {
    hide CompareCells, MemberOf, AsTexts, IsMatch, Differs, Equals;
    hide Less, AtMost, Same, Comparable, Infix, Prefix, Suffix;
    hide Contains, StartsWith, EndsWith, Pattern, PyStr, FreshnessExpr;
    var x := At(r, c.column);
    EvalNot(IsNull(c.column), r, env);
    match c.operator
    case OpIsNull =>
    case OpNotNull =>
    case OpInList => MembershipMeans(x, c.values, AsTexts(x, c.values), env);
    case OpNotInList =>
      MembershipMeans(x, c.values, AsTexts(x, c.values), env);
      EvalNot(Member(c.column, c.values), r, env);
    case OpRequiredWhenOther => EvalOr(IsNull(c.compareColumn), Not(IsNull(c.column)), r, env);
    case OpNotFuture => EvalAnd(Not(IsNull(c.column)), NotAfterNow(c.column), r, env);
    case _ => ComparisonMeans(x, At(r, c.compareColumn), env);
  }

  /**
   Every accepted condition evaluates to true on a row exactly when the row meets it, in the columns its names mean.
   */
  lemma ConditionMeans(head: Header, c: Condition, r: Row, env: Env)
    requires BuildCondition(head, c, env).Ok?
    ensures !Doubtful(BuildCondition(head, c, env).value, r, env) <==> Met(Located(head.names, c), r, env)
  {
    hide OperatorExpr, Met, Doubtful, Located, Reaches, Analysed;
    LocatedConditionMeans(Located(head.names, c), r, env);
  }

  /** On a table that its names find as they stand, a condition is about the columns it names. */
  lemma LocatedAsNamed(columns: seq<string>, c: Condition, r: Row, env: Env)
    requires c.column in columns && Plain(c.column) && Alone(columns, c.column)
    requires ComparesColumns(c.operator) ==>
               c.compareColumn in columns && Plain(c.compareColumn) && Alone(columns, c.compareColumn)
    ensures Met(Located(columns, c), r, env) <==> Met(c, r, env)
  {
    hide Resolve, Plain, Alone, Infix, Prefix, Suffix, Equals, Less, AtMost, Comparable, Same, TextOf, Pattern, Amount;
    PlainFinds(columns, c.column);
    if ComparesColumns(c.operator) {
      PlainFinds(columns, c.compareColumn);
    }
  }

  lemma LocatedConditionMeans(c: Condition, r: Row, env: Env)
    requires OperatorExpr(c, env).Ok?
    ensures !Doubtful(OperatorExpr(c, env).value, r, env) <==> Met(c, r, env)
  {
    if c.operator == OpFreshness {
      hide FreshnessExpr, Met, Doubtful;
      FreshnessMeans(c, r, env);
    } else {
      hide OperatorExpr, Met, Doubtful;
      if LooksAtText(c.operator) {
        TextConditionMeans(c, r, env);
      } else if ComparesWithLiteral(c.operator) {
        LiteralConditionMeans(c, r, env);
      } else {
        OtherConditionMeans(c, r, env);
      }
    }
  }

  lemma TextMeans(x: Cell, part: string, env: Env)
    ensures var text := TextOf(x, env);
            text.Some? ==>
              && (Contains(text.value, part) <==> Infix(text.value, part))
              && (StartsWith(text.value, part) <==> Prefix(text.value, part))
              && (EndsWith(text.value, part) <==> Suffix(text.value, part))
  {
    var text := TextOf(x, env);
    if text.Some? {
      ContainsMeans(text.value, part);
      EndsMean(text.value, part);
    }
  }

  lemma FreshnessMeans(c: Condition, r: Row, env: Env)
    requires c.operator == OpFreshness && FreshnessExpr(c, env).Ok?
    ensures !Doubtful(FreshnessExpr(c, env).value, r, env) <==> Met(c, r, env)
  {
    hide CompareCells;
    var x, amount := At(r, c.column), Amount(c.value, env).value;
    var hours := if c.timeUnit == Hours then amount else if c.timeUnit == Days then 24.0 * amount else 0.0;
    ComparisonMeans(x, Text(env.hoursAgo(hours)), env);
    assert FreshnessExpr(c, env) == Ok(And(Not(IsNull(c.column)), CompareTo(Ge, c.column, Text(env.hoursAgo(hours)))));
    var bound := CompareTo(Ge, c.column, Text(env.hoursAgo(hours)));
    assert Eval(And(Not(IsNull(c.column)), bound), r, env)
        == And3(Eval(Not(IsNull(c.column)), r, env), Eval(bound, r, env));
    EvalNot(IsNull(c.column), r, env);
  }

  lemma EvalBetween(c: Condition, r: Row, env: Env)
    ensures var x := At(r, c.column);
            && (Eval(BetweenExpr(c), r, env) == Yes <==> AtMost(c.value, x, env) && AtMost(x, c.valueTo, env))
            && (Eval(Not(BetweenExpr(c)), r, env) == Yes <==> Less(x, c.value, env) || Less(c.valueTo, x, env))
  {
    hide CompareCells, AtMost, Less;
    var x := At(r, c.column);
    ComparisonMeans(x, c.value, env);
    ComparisonMeans(x, c.valueTo, env);
    assert Eval(BetweenExpr(c), r, env) == And3(CompareCells(Ge, x, c.value, env), CompareCells(Le, x, c.valueTo, env));
    EvalNot(BetweenExpr(c), r, env);
  }

  lemma EvalAnd(a: Expr, b: Expr, r: Row, env: Env)
    ensures Eval(And(a, b), r, env) == And3(Eval(a, r, env), Eval(b, r, env))
  {
    hide EvalTest, And3, Or3, Not3, Truly;
  }

  lemma EvalOr(a: Expr, b: Expr, r: Row, env: Env)
    ensures Eval(Or(a, b), r, env) == Or3(Eval(a, r, env), Eval(b, r, env))
  {
    hide EvalTest, And3, Or3, Not3, Truly;
  }

  lemma EvalNot(e: Expr, r: Row, env: Env)
    ensures Eval(Not(e), r, env) == Not3(Eval(e, r, env))
  {
    hide EvalTest, And3, Or3, Not3, Truly;
  }

  /**
   The rows a rule of conditions flags, in terms of what its conditions ask: under AND those that miss some,
   under OR those that miss all.
   */
  lemma RuleMeans(t: Table, logic: string, cs: seq<Condition>, cols: seq<string>, r: Row, env: Env)
    requires cs != [] && !AsksUnique(Rule(logic, cs, cols))
    requires Violations(t, Rule(logic, cs, cols), env).Ok? && r in t.rows
    ensures r in Violations(t, Rule(logic, cs, cols), env).value
       <==> if IsAnd(logic) then exists c :: c in cs && !Met(Located(t.columns, c), r, env)
            else forall c :: c in cs ==> !Met(Located(t.columns, c), r, env)
  {
    hide BuildCondition, Met, Doubtful, IsAnd, Flagged, Located;
    FlaggedByConditions(t.Head(), cs, IsAnd(logic), r, env);
    AcceptedIff(t.Head(), cs, env);
    forall c | c in cs ensures InDoubt(t.Head(), c, r, env) <==> !Met(Located(t.columns, c), r, env) {
      ConditionMeans(t.Head(), c, r, env);
    }
  }
}
