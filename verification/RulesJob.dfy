/** The rule loop of the executor's `main`: every rule gets one result, and one rule's failure is its own. */
module RulesJob {
  import opened Results
  import opened Tables
  import opened PyStrings
  import opened Rules
  import Reconciliation

  datatype ComparisonField =
    | NoComparison
    | NotADictionary
    | Comparing(tableFqn: string, comparison: Reconciliation.Comparison)

  datatype Definition =
    | Unstructured
    | Structured(kind: string, rule: Rule, comparison: ComparisonField)

  datatype RuleEntry = RuleEntry(id: int, definition: Definition)

  datatype Status = Passed | Failed | Errored

  datatype RuleResult = RuleResult(id: int, status: Status, rowsChecked: nat, violations: nat,
                                   preview: seq<Row>, message: Option<string>)

  datatype Summary = Summary(total: nat, failed: nat, errors: nat, passed: nat)

  predicate Reconciles(d: Definition)
    requires d.Structured?
  {
    Lower(Strip(d.kind)) == "reconciliation" || d.comparison != NoComparison
  }

  /** The comparison table is read by name; a failed read raises. */
  type Loader = string -> Result<Table>

  function ReconcileEntry(t: Table, d: Definition, load: Loader, env: Env): Result<Reconciliation.Verdict>
    requires d.Structured?
  {
    if !d.comparison.Comparing? then Err("no structured comparison") else
    var fqn := Strip(d.comparison.tableFqn);
    if fqn == "" then Err("no comparison table") else
    match load(fqn)
    case Err(m) => Err(m)
    case Ok(other) => Reconciliation.Reconcile(t, other, d.comparison.comparison, env)
  }

  /** `safe_preview(df, limit=20)` */
  function Preview(rows: seq<Row>): seq<Row> {
    if |rows| <= 20 then rows else rows[..20]
  }

  /** What a rule's result has to be, judged from that rule and the table alone. */
  predicate Explains(res: RuleResult, t: Table, entry: RuleEntry, load: Loader, env: Env) {
    && res.id == entry.id
    && res.rowsChecked == |t.rows|
    && (res.status == Passed ==> res.violations == 0)
    && (res.status == Failed ==> res.violations > 0)
    && (res.status == Errored ==> res.violations == 0 && res.preview == [] && res.message.Some?)
    && match entry.definition
       case Unstructured => res.status == Errored
       case Structured(_, rule, _) =>
         if Reconciles(entry.definition) then
           match ReconcileEntry(t, entry.definition, load, env)
           case Err(m) => res.status == Errored && res.message == Some(m)
           case Ok(Pass) => res.status == Passed && res.message.None?
           case Ok(Fail(reason)) => res.status == Failed && res.violations == 1 && res.message == Some(reason)
         else
           match Violations(t, rule, env)
           case Err(m) => res.status == Errored && res.message == Some(m)
           case Ok(rows) =>
             res.violations == |rows| && res.preview == Preview(rows) && res.status != Errored && res.message.None?
  }

  method RunRule(t: Table, entry: RuleEntry, load: Loader, env: Env) returns (res: RuleResult)
    ensures Explains(res, t, entry, load, env)
  {
    hide Violations, Reconciliation.Reconcile;
    var n := |t.rows|;
    match entry.definition {
      case Unstructured =>
        res := RuleResult(entry.id, Errored, n, 0, [], Some("no structured definition"));
      case Structured(_, rule, _) =>
        if Reconciles(entry.definition) {
          match ReconcileEntry(t, entry.definition, load, env) {
            case Err(m) => res := RuleResult(entry.id, Errored, n, 0, [], Some(m));
            case Ok(Pass) => res := RuleResult(entry.id, Passed, n, 0, [], None);
            case Ok(Fail(reason)) => res := RuleResult(entry.id, Failed, n, 1, [], Some(reason));
          }
        } else {
          var found := ViolationRows(t, rule, env);
          match found {
            case Err(m) => res := RuleResult(entry.id, Errored, n, 0, [], Some(m));
            case Ok(rows) =>
              res := RuleResult(entry.id, if |rows| > 0 then Failed else Passed, n, |rows|, Preview(rows), None);
          }
        }
    }
  }

  function CountOf(results: seq<RuleResult>, status: Status): nat {
    if results == [] then 0 else
    CountOf(results[..|results| - 1], status) + if results[|results| - 1].status == status then 1 else 0
  }

  /** Results in rule order, each explained by its own rule, and a summary whose parts add up. */
  method RunRules(t: Table, entries: seq<RuleEntry>, load: Loader, env: Env)
    returns (results: seq<RuleResult>, summary: Summary)
    ensures |results| == |entries|
    ensures forall i :: 0 <= i < |entries| ==> Explains(results[i], t, entries[i], load, env)
    ensures summary == Summary(|results|, CountOf(results, Failed), CountOf(results, Errored), CountOf(results, Passed))
    ensures summary.total == summary.failed + summary.errors + summary.passed
  {
    hide Explains;
    results := [];
    var failed, errors, passed := 0, 0, 0;
    for i := 0 to |entries|
      invariant |results| == i
      invariant forall j :: 0 <= j < i ==> Explains(results[j], t, entries[j], load, env)
      invariant failed == CountOf(results, Failed) && errors == CountOf(results, Errored)
      invariant passed == CountOf(results, Passed)
      invariant failed + errors + passed == i
    {
      var res := RunRule(t, entries[i], load, env);
      assert (results + [res])[..i] == results;
      results := results + [res];
      match res.status {
        case Failed => failed := failed + 1;
        case Errored => errors := errors + 1;
        case Passed => passed := passed + 1;
      }
    }
    summary := Summary(|results|, failed, errors, passed);
  }
}
