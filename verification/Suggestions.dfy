/** `_suggestions_for_column`: the rules the profiler proposes, and what the rule executor makes of them. */
module Suggestions {
  import opened Results
  import opened Tables
  import opened PyStrings
  import opened ColumnNames
  import Rules
  import Profiler

  datatype Pattern = Cpf | Cnpj | Email | Phone | Status | ContemplationDate | DueDate | OtherPattern

  /** The fields of a column's profile that suggestions look at; the ratios are percentages. */
  datatype ColumnProfile = ColumnProfile(
    name: string, pattern: Pattern, numeric: bool, distinctCount: nat, fillRatio: real, nullRatio: real,
    mean: Option<real>, stddev: Option<real>, topValues: seq<Option<string>>)

  datatype Suggestion = Suggestion(ruleType: string, confidence: real, condition: Rules.Condition)

  /** The rule definition a suggestion carries: one condition under AND. */
  function RuleOf(s: Suggestion): Rules.Rule {
    Rules.Rule("AND", [s.condition], [])
  }

  function Regex(p: Pattern): string {
    match p
    case Cpf => "^\\d{3}\\.?\\d{3}\\.?\\d{3}-?\\d{2}$"
    case Cnpj => "^\\d{2}\\.?\\d{3}\\.?\\d{3}/?\\d{4}-?\\d{2}$"
    case Email => "^[^@\\s]+@[^@\\s]+\\.[^@\\s]+$"
    case _ => "^\\+?\\d{10,15}$"
  }

  predicate HasRegex(p: Pattern) {
    p == Cpf || p == Cnpj || p == Email || p == Phone
  }

  /** `distinct_count >= max(10, int(row_count * 0.8))` */
  predicate Selective(p: ColumnProfile, rowCount: nat) {
    p.distinctCount >= 10 && p.distinctCount >= (rowCount as real * 0.8).Floor
  }

  /** The values present among the masked top values. */
  function Present(vs: seq<Option<string>>): seq<Cell> {
    if vs == [] then [] else
    var k := |vs| - 1;
    Present(vs[..k]) + if vs[k].Some? then [Text(vs[k].value)] else []
  }

  function FirstTen(vs: seq<Cell>): seq<Cell> {
    if |vs| <= 10 then vs else vs[..10]
  }

  function Domain(p: ColumnProfile): Suggestion {
    Suggestion("domain", match p.pattern case Email => 0.97 case Phone => 0.94 case _ => 0.98,
               Profiler.NamedCondition(p.name, Rules.OpMatchesRegex).(value := Text(Regex(p.pattern))))
  }

  function Required(p: ColumnProfile): Suggestion {
    Suggestion(if p.pattern == Email then "max_null_ratio" else "nullability",
               match p.pattern case Cpf => 0.88 case Cnpj => 0.82 case _ => 0.8,
               Profiler.NamedCondition(p.name, Rules.OpNotNull))
  }

  function UniqueColumn(p: ColumnProfile, confidence: real): Suggestion {
    Suggestion("uniqueness", confidence, Profiler.NamedCondition(p.name, Rules.OpUnique))
  }

  function AllowedValues(p: ColumnProfile): Suggestion {
    Suggestion("domain_values", 0.76,
               Profiler.NamedCondition(p.name, Rules.OpInList).(values := FirstTen(Present(p.topValues))))
  }

  function Interval(p: ColumnProfile): Suggestion
    requires p.mean.Some? && p.stddev.Some?
  {
    var low, high := p.mean.value - 3.0 * p.stddev.value, p.mean.value + 3.0 * p.stddev.value;
    Suggestion("outlier_threshold", 0.68,
               Profiler.NamedCondition(p.name, Rules.OpBetween).(value := Num(low, false), valueTo := Num(high, false)))
  }

  function NotFuture(p: ColumnProfile): Suggestion {
    Suggestion("freshness_sla", 0.62, Profiler.NamedCondition(p.name, Rules.OpNotFuture))
  }

  function When(c: bool, s: Suggestion): seq<Suggestion> {
    if c then [s] else []
  }

  predicate FewStates(p: ColumnProfile) {
    p.pattern == Status && 1 < p.distinctCount <= 20
  }

  predicate Spread(p: ColumnProfile) {
    p.mean.Some? && p.stddev.Some? && p.stddev.value > 0.0
  }

  /** What the column's pattern, or else its numeric type, earns it: each suggestion under its own condition. */
  function PatternSuggested(p: ColumnProfile, rowCount: nat): seq<Suggestion> {
    When(HasRegex(p.pattern), Domain(p))
    + When(((p.pattern == Cpf || p.pattern == Cnpj) && p.fillRatio >= 80.0)
           || (p.pattern == Email && p.nullRatio <= 5.0), Required(p))
    + When(p.pattern == Cpf && Selective(p, rowCount), UniqueColumn(p, 0.9))
    + When(FewStates(p) && Present(p.topValues) != [], AllowedValues(p))
    + (if !HasRegex(p.pattern) && !FewStates(p) && p.numeric && Spread(p) then [Interval(p)] else [])
  }

  /** Which suggestions a profile earns, in order. */
  function Suggested(p: ColumnProfile, rowCount: nat): seq<Suggestion> {
    PatternSuggested(p, rowCount)
    + When(EndsWith(Lower(p.name), "_id") && Selective(p, rowCount), UniqueColumn(p, 0.72))
    + When(p.pattern == ContemplationDate || p.pattern == DueDate, NotFuture(p))
  }

  method PatternSuggestions(p: ColumnProfile, rowCount: nat) returns (suggestions: seq<Suggestion>)
    ensures suggestions == PatternSuggested(p, rowCount)
  {
    hide Domain, Required, UniqueColumn, AllowedValues, Interval, NotFuture, Selective, EndsWith;
    suggestions := [];
    if p.pattern == Cpf {
      suggestions := suggestions + [Domain(p)];
      if p.fillRatio >= 80.0 {
        suggestions := suggestions + [Required(p)];
      }
      if Selective(p, rowCount) {
        suggestions := suggestions + [UniqueColumn(p, 0.9)];
      }
    } else if p.pattern == Cnpj {
      suggestions := suggestions + [Domain(p)];
      if p.fillRatio >= 80.0 {
        suggestions := suggestions + [Required(p)];
      }
    } else if p.pattern == Email {
      suggestions := suggestions + [Domain(p)];
      if p.nullRatio <= 5.0 {
        suggestions := suggestions + [Required(p)];
      }
    } else if p.pattern == Phone {
      suggestions := suggestions + [Domain(p)];
    } else if FewStates(p) {
      if Present(p.topValues) != [] {
        suggestions := suggestions + [AllowedValues(p)];
      }
    } else if p.numeric {
      if Spread(p) {
        suggestions := suggestions + [Interval(p)];
      }
    }
  }

  method SuggestionsForColumn(p: ColumnProfile, rowCount: nat) returns (suggestions: seq<Suggestion>)
    ensures suggestions == Suggested(p, rowCount)
  {
    hide PatternSuggested, UniqueColumn, NotFuture, Selective, EndsWith;
    suggestions := PatternSuggestions(p, rowCount);
    if EndsWith(Lower(p.name), "_id") && Selective(p, rowCount) {
      suggestions := suggestions + [UniqueColumn(p, 0.72)];
    }
    if p.pattern == ContemplationDate || p.pattern == DueDate {
      suggestions := suggestions + [NotFuture(p)];
    }
  }

  /** `strip` does not change a pattern. */
  lemma RegexSurvivesStrip(p: Pattern)
    ensures Regex(p) != "" && Strip(Regex(p)) == Regex(p)
  {
    hide Strip;
    assert Regex(p)[0] == '^';
    assert Regex(p)[|Regex(p)| - 1] == '$';
    StripIsBare(Regex(p));
  }

  lemma DomainBuilds(head: Header, p: ColumnProfile, env: Env)
    requires p.name in head.names
    ensures Rules.BuildCondition(head, Domain(p).condition, env).Ok?
       <==> Resolve(head.names, p.name).Some? && env.compiles(Regex(p.pattern))
  {
    hide Strip, Regex, Resolve;
    RegexSurvivesStrip(p.pattern);
    var c := Domain(p).condition;
    assert Rules.Pattern(Rules.Located(head.names, c).value, env) == Regex(p.pattern);
  }

  lemma {:induction false} PresentAreTexts(vs: seq<Option<string>>)
    ensures forall v :: v in Present(vs) ==> v.Text?
  {
    if vs != [] {
      PresentAreTexts(vs[..|vs| - 1]);
    }
  }

  /** Some texts have a common type with a column exactly when its values are read as texts beside them. */
  lemma TextsAreListed(kind: Kind, vs: seq<Cell>)
    requires vs != [] && forall v :: v in vs ==> v.Text?
    ensures Rules.ListsKinds(kind, vs) <==> Rules.ReadsAsText(kind)
  {
    assert vs[0] in vs;
    forall i | 0 <= i < |vs| ensures vs[i].Text? {
      assert vs[i] in vs;
    }
  }

  lemma AllowedBuilds(head: Header, p: ColumnProfile, env: Env)
    requires p.name in head.names && Present(p.topValues) != []
    ensures Rules.BuildCondition(head, AllowedValues(p).condition, env).Ok?
       <==> && Resolve(head.names, p.name).Some?
            && Rules.ReadsAsText(head.KindAt(Resolve(head.names, p.name).value))
  {
    hide Resolve, Rules.ListsKinds, Rules.ReadsAsText, Present;
    PresentAreTexts(p.topValues);
    var vs := FirstTen(Present(p.topValues));
    if Resolve(head.names, p.name).Some? {
      TextsAreListed(head.KindAt(Resolve(head.names, p.name).value), vs);
    }
  }

  lemma IntervalBuilds(head: Header, p: ColumnProfile, env: Env)
    requires p.name in head.names && p.mean.Some? && p.stddev.Some?
    ensures Rules.BuildCondition(head, Interval(p).condition, env).Ok?
       <==> && Resolve(head.names, p.name).Some?
            && head.KindAt(Resolve(head.names, p.name).value) in {NumberKind, TextKind}
  {
    hide Resolve;
    var c := Rules.Located(head.names, Interval(p).condition);
    var from, to := Rules.CompareTo(Rules.Ge, c.column, c.value), Rules.CompareTo(Rules.Le, c.column, c.valueTo);
    assert Rules.Analysed(Rules.And(from, to), head) <==> Rules.Analysed(from, head) && Rules.Analysed(to, head);
  }

  lemma NotFutureBuilds(head: Header, c: Rules.Condition, env: Env)
    requires c.column in head.names && c.operator == Rules.OpNotFuture
    ensures Rules.BuildCondition(head, c, env).Ok? <==> Resolve(head.names, c.column).Some?
  {
    hide Resolve;
    var at := Rules.Located(head.names, c);
    var left, right := Rules.Not(Rules.IsNull(at.column)), Rules.NotAfterNow(at.column);
    assert Rules.Analysed(Rules.IsNull(at.column), head);
    assert Rules.Analysed(Rules.And(left, right), head) <==> Rules.Analysed(left, head) && Rules.Analysed(right, head);
  }

  /** What a suggestion's condition can be. */
  lemma SuggestionShape(p: ColumnProfile, rowCount: nat, s: Suggestion)
    requires s in Suggested(p, rowCount)
    ensures s.condition.column == p.name
    ensures s == Domain(p)
         || s.condition.operator in {Rules.OpNotNull, Rules.OpUnique, Rules.OpInList, Rules.OpBetween,
                                     Rules.OpNotFuture}
    ensures s.condition.operator == Rules.OpNotNull ==> s.condition == Profiler.NamedCondition(p.name, Rules.OpNotNull)
    ensures s.condition.operator == Rules.OpUnique ==> s.condition == Profiler.NamedCondition(p.name, Rules.OpUnique)
    ensures s.condition.operator == Rules.OpInList ==> s == AllowedValues(p) && Present(p.topValues) != []
    ensures s.condition.operator == Rules.OpBetween ==> p.mean.Some? && p.stddev.Some? && s == Interval(p)
  {
    hide Suggested, Regex;
    SuggestionCases(p, rowCount, s);
  }

  lemma SuggestionCases(p: ColumnProfile, rowCount: nat, s: Suggestion)
    requires s in Suggested(p, rowCount)
    ensures || s == Domain(p) || s == Required(p) || s == UniqueColumn(p, 0.9) || s == UniqueColumn(p, 0.72)
            || (s == AllowedValues(p) && Present(p.topValues) != [])
            || (p.mean.Some? && p.stddev.Some? && s == Interval(p)) || s == NotFuture(p)
  {
    hide Selective, EndsWith, Domain, Required, UniqueColumn, AllowedValues, Interval, NotFuture, Present;
  }

  /**
   Whether the literals of a suggested condition can be compared with a column: the texts of `in_list` not with
   booleans, bytes or arrays, the numbers of `between` with numbers and texts only.
   */
  predicate TakesLiterals(op: Rules.Operator, kind: Kind) {
    && (op == Rules.OpInList ==> Rules.ReadsAsText(kind))
    && (op == Rules.OpBetween ==> kind in {NumberKind, TextKind})
  }

  /**
   Every suggestion made for a column of a table is a rule the executor accepts on that table, if and only if Spark
   finds a column for its name whose kind takes the suggested literals, and the regex engine accepts its pattern,
   where it has one. A name finds its own column exactly when it is plain and no other differs only by case; without
   backticks it finds that or none. On the column found, `not_null` reports exactly the profiled null count, and
   `unique` what the profiled counts predict.
   */
  lemma SuggestionsAreExecutable(p: ColumnProfile, rowCount: nat, s: Suggestion, t: Table, env: Env)
    requires s in Suggested(p, rowCount)
    requires p.name in t.columns
    ensures var v, found := Rules.Violations(t, RuleOf(s), env), Resolve(t.columns, p.name);
            && (v.Ok? <==>
                  && found.Some? && TakesLiterals(s.condition.operator, t.Head().KindAt(found.value))
                  && (s.condition.operator == Rules.OpMatchesRegex ==> env.compiles(Regex(p.pattern))))
            && (found == Some(p.name) <==> Plain(p.name) && Alone(t.columns, p.name))
            && ('`' !in p.name ==> (found.Some? <==> Plain(p.name) && Alone(t.columns, p.name)))
            && (v.Ok? && s.condition.operator == Rules.OpNotNull ==>
                  |v.value| == Profiler.NullCount(Column(t.rows, found.value)))
            && (v.Ok? && s.condition.operator == Rules.OpUnique ==>
                  Profiler.MatchesExcess(|v.value|, Column(t.rows, found.value)))
  {
    hide Suggested, Profiler.NullCount, Profiler.MatchesExcess, Resolve, Plain, Alone, Regex, Rules.Violations;
    SuggestionShape(p, rowCount, s);
    PlainFinds(t.columns, p.name);
    if '`' !in p.name {
      UnquotedFindsOrFails(t.columns, p.name);
    }
    if s.condition.operator == Rules.OpNotNull {
      Profiler.NotNullReportsNullCount(t, p.name, "AND", env);
    } else if s.condition.operator == Rules.OpUnique {
      Profiler.UniqueAgreesWithProfile(t, p.name, "AND", env);
    } else {
      OtherSuggestionRuns(p, rowCount, s, t, env);
    }
  }

  lemma OtherSuggestionRuns(p: ColumnProfile, rowCount: nat, s: Suggestion, t: Table, env: Env)
    requires s in Suggested(p, rowCount) && p.name in t.columns
    requires s.condition.operator != Rules.OpUnique && s.condition.operator != Rules.OpNotNull
    ensures Rules.Violations(t, RuleOf(s), env).Ok?
       <==> && Resolve(t.columns, p.name).Some?
            && TakesLiterals(s.condition.operator, t.Head().KindAt(Resolve(t.columns, p.name).value))
            && (s.condition.operator == Rules.OpMatchesRegex ==> env.compiles(Regex(p.pattern)))
  {
    SuggestionShape(p, rowCount, s);
    DomainIsRegex(p);
    ConditionAloneRuns(s, t, env);
    hide Suggested, Domain, AllowedValues, Interval, Resolve, Regex, Rules.Violations, Rules.ReadsAsText, Present,
         Rules.BuildCondition;
    if s == Domain(p) {
      DomainBuilds(t.Head(), p, env);
    } else if s.condition.operator == Rules.OpInList {
      AllowedBuilds(t.Head(), p, env);
    } else if s.condition.operator == Rules.OpBetween {
      IntervalBuilds(t.Head(), p, env);
    } else {
      NotFutureBuilds(t.Head(), s.condition, env);
    }
  }

  /** A rule of one condition runs exactly when its condition is accepted. */
  lemma ConditionAloneRuns(s: Suggestion, t: Table, env: Env)
    requires s.condition.operator != Rules.OpUnique
    ensures Rules.Violations(t, RuleOf(s), env).Ok? <==> Rules.BuildCondition(t.Head(), s.condition, env).Ok?
  {
    hide Rules.Flagged, Rules.BuildCondition, Rules.BuildAll;
    Profiler.BuildOne(t.Head(), s.condition, env);
  }

  /** No list of texts is accepted for a column of booleans, bytes or arrays. */
  lemma AllowedIsRefused(p: ColumnProfile, rowCount: nat, t: Table, env: Env)
    requires AllowedValues(p) in Suggested(p, rowCount)
    requires p.name in t.columns && Plain(p.name) && Alone(t.columns, p.name)
    requires !Rules.ReadsAsText(t.Head().KindAt(p.name))
    ensures Rules.Violations(t, RuleOf(AllowedValues(p)), env).Err?
  {
    AllowedIsList(p);
    hide Rules.Violations, Suggested, Resolve, AllowedValues, Plain, Alone, Regex, Rules.ReadsAsText;
    SuggestionsAreExecutable(p, rowCount, AllowedValues(p), t, env);
  }

  /**
   A boolean column `status` with both its values gets the suggestion that it hold one of two masked texts, and the
   executor refuses it.
   */
  lemma BooleanStatusIsRefused(p: ColumnProfile, rowCount: nat, t: Table, env: Env)
    requires p.name == "status" && p.pattern == Status && p.distinctCount == 2
    requires p.topValues == [Some("fa***"), Some("tr***")]
    requires t.columns == ["status"] && t.kinds == map["status" := BooleanKind]
    ensures AllowedValues(p) in Suggested(p, rowCount)
    ensures Rules.Violations(t, RuleOf(AllowedValues(p)), env).Err?
  {
    hide Rules.Violations, Suggested, Resolve, Alone, AllowedValues, Present;
    SomethingPresent(p.topValues);
    AllowedIsSuggested(p, rowCount);
    assert t.Head().KindAt("status") == BooleanKind;
    LoneNameFindsItself("status");
    PlainFinds(t.columns, "status");
    AllowedIsRefused(p, rowCount, t, env);
  }

  lemma SomethingPresent(vs: seq<Option<string>>)
    requires vs != [] && vs[|vs| - 1].Some?
    ensures Present(vs) != []
  {}

  lemma AllowedIsList(p: ColumnProfile)
    ensures AllowedValues(p).condition.operator == Rules.OpInList
  {}

  lemma AllowedIsSuggested(p: ColumnProfile, rowCount: nat)
    requires FewStates(p) && Present(p.topValues) != []
    ensures AllowedValues(p) in Suggested(p, rowCount)
  {
    hide Selective, EndsWith, Domain, Required, UniqueColumn;
    hide AllowedValues, Interval, NotFuture, Present, HasRegex, FewStates;
  }

  lemma LoneNameFindsItself(name: string)
    requires Plain(name)
    ensures Resolve([name], name) == Some(name)
  {
    PlainFinds([name], name);
    var p := (c: string) => Lower(c) == Lower(name);
    assert [name][..0] == [] && Counting.Filter([], p) == [];
    assert Counting.Filter([name], p) == [name];
  }

  /**
   A column `cliente.email` of a table is profiled under its quoted name, but every rule suggested for it fails:
   the executor's reference asks for a field of a column `cliente`.
   */
  lemma DottedNameIsRefused(p: ColumnProfile, rowCount: nat, s: Suggestion, t: Table, env: Env)
    requires p.name == "cliente.email" && p.name in t.columns && Alone(t.columns, p.name)
    requires s in Suggested(p, rowCount)
    ensures Resolve(t.columns, Quote(p.name)) == Some(p.name)
    ensures Rules.Violations(t, RuleOf(s), env).Err?
  {
    hide Alone, Resolve, Rules.Violations, Suggested;
    assert p.name[7] == '.';
    assert !Plain(p.name);
    QuoteFinds(t.columns, p.name);
    SuggestionsAreExecutable(p, rowCount, s, t, env);
  }

  lemma DomainIsRegex(p: ColumnProfile)
    ensures Domain(p).condition.operator == Rules.OpMatchesRegex
  {}
}
