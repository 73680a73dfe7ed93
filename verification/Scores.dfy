/** Dimension scores of a profile and their weighted blend. Scores are exact reals. */
module Scores {
  import opened Results
  import opened Decimal
  import opened Sums

  datatype Dimension =
    | Completeness | Validity | Consistency | Uniqueness | Timeliness | Accuracy | Governance | Traceability
    | Sensitivity

  type ScoreMap = Dimension -> Option<real>

  /** A weight map in the order it is written. */
  type Weights = seq<(Dimension, real)>

  const DEFAULT_WEIGHTS: Weights :=
    [(Completeness, 20.0), (Validity, 15.0), (Consistency, 20.0), (Uniqueness, 15.0), (Timeliness, 15.0),
     (Accuracy, 10.0), (Governance, 5.0), (Traceability, 0.0), (Sensitivity, 0.0)]

  const FINTECH_WEIGHTS: Weights :=
    [(Completeness, 15.0), (Validity, 15.0), (Consistency, 20.0), (Uniqueness, 10.0), (Timeliness, 15.0),
     (Accuracy, 10.0), (Governance, 5.0), (Traceability, 5.0), (Sensitivity, 5.0)]

  // ----- blending -----

  function Product(w: real, s: real): real {
    w * s
  }

  function WeightedTotal(ws: Weights, scores: ScoreMap): real {
    if ws == [] then 0.0 else
    var (d, w) := ws[|ws| - 1];
    WeightedTotal(ws[..|ws| - 1], scores) + if scores(d).Some? then Product(w, scores(d).value) else 0.0
  }

  function UsableWeight(ws: Weights, scores: ScoreMap): real {
    if ws == [] then 0.0 else
    var (d, w) := ws[|ws| - 1];
    UsableWeight(ws[..|ws| - 1], scores) + if scores(d).Some? then w else 0.0
  }

  function TotalWeight(ws: Weights): real {
    if ws == [] then 0.0 else TotalWeight(ws[..|ws| - 1]) + ws[|ws| - 1].1
  }

  /** The blend before rounding, where some weight is usable. */
  function RawBlend(ws: Weights, scores: ScoreMap): real
    requires UsableWeight(ws, scores) > 0.0
  {
    WeightedTotal(ws, scores) / UsableWeight(ws, scores)
  }

  function RawCoverage(ws: Weights, scores: ScoreMap): real {
    UsableWeight(ws, scores) / (if TotalWeight(ws) > 1.0 then TotalWeight(ws) else 1.0) * 100.0
  }

  /** The coverage returned: rounded, and nothing where no weight is usable. */
  function Coverage(ws: Weights, scores: ScoreMap): real {
    if UsableWeight(ws, scores) > 0.0 then Round4(RawCoverage(ws, scores)) else 0.0
  }

  /**
   `_blend_score`: its running totals are the weighted mean of the present scores and the share of weight they carry.
   */
  method BlendScore(ws: Weights, scores: ScoreMap) returns (score: Option<real>, coverage: real)
    ensures score == if UsableWeight(ws, scores) > 0.0 then Some(Round4(RawBlend(ws, scores))) else None
    ensures coverage == Coverage(ws, scores)
  {
    var weighted, usable, all := 0.0, 0.0, 0.0;
    for i := 0 to |ws|
      invariant weighted == WeightedTotal(ws[..i], scores) && usable == UsableWeight(ws[..i], scores)
      invariant all == TotalWeight(ws[..i])
    {
      assert ws[..i + 1][..i] == ws[..i];
      var (d, w) := ws[i];
      all := all + w;
      if scores(d).Some? {
        weighted := weighted + w * scores(d).value;
        usable := usable + w;
      }
    }
    assert ws[..|ws|] == ws;
    if usable <= 0.0 {
      return None, 0.0;
    }
    score := Some(Round4(weighted / usable));
    coverage := Round4(usable / (if all > 1.0 then all else 1.0) * 100.0);
  }

  predicate NonNegative(ws: Weights) {
    forall i :: 0 <= i < |ws| ==> ws[i].1 >= 0.0
  }

  /** Every present score with a positive weight lies between `lo` and `hi`. */
  predicate Within(ws: Weights, scores: ScoreMap, lo: real, hi: real) {
    forall i :: 0 <= i < |ws| && ws[i].1 > 0.0 && scores(ws[i].0).Some? ==> lo <= scores(ws[i].0).value <= hi
  }

  lemma MulBounds(w: real, s: real, lo: real, hi: real)
    requires w >= 0.0 && (w > 0.0 ==> lo <= s <= hi)
    ensures w * lo <= w * s <= w * hi
  {}

  lemma MulStrict(u: real, x: real, y: real)
    requires u > 0.0 && x < y
    ensures u * x < u * y
  {}

  lemma Distributes(u: real, w: real, x: real)
    ensures (u + w) * x == u * x + w * x
  {}

  lemma QuotientOf(a: real, u: real)
    requires u > 0.0
    ensures u * (a / u) == a
  {}

  /** A quotient is at most `q` exactly when the dividend is at most the product. */
  lemma QuotientAtMost(a: real, u: real, q: real)
    requires u > 0.0
    ensures a / u <= q <==> a <= u * q
    ensures a / u >= q <==> a >= u * q
  {
    QuotientOf(a, u);
    var p := a / u;
    if p < q {
      MulStrict(u, p, q);
    } else if p > q {
      MulStrict(u, q, p);
    }
  }

  lemma {:induction false} WeightedBounds(ws: Weights, scores: ScoreMap, lo: real, hi: real)
    requires NonNegative(ws) && Within(ws, scores, lo, hi)
    ensures Product(UsableWeight(ws, scores), lo) <= WeightedTotal(ws, scores) <= Product(UsableWeight(ws, scores), hi)
  {
    hide Product;
    if ws == [] {
      NothingWeighs(lo);
      NothingWeighs(hi);
    } else {
      var k := |ws| - 1;
      WeightedBounds(ws[..k], scores, lo, hi);
      var w, score := ws[k].1, scores(ws[k].0);
      if score.Some? {
        BoundsStep(UsableWeight(ws[..k], scores), WeightedTotal(ws[..k], scores), w, score.value, lo, hi);
      }
    }
  }

  lemma NothingWeighs(x: real)
    ensures Product(0.0, x) == 0.0
  {}

  lemma BoundsStep(u: real, total: real, w: real, s: real, lo: real, hi: real)
    requires Product(u, lo) <= total <= Product(u, hi)
    requires w >= 0.0 && (w > 0.0 ==> lo <= s <= hi)
    ensures Product(u + w, lo) <= total + Product(w, s) <= Product(u + w, hi)
  {
    MulBounds(w, s, lo, hi);
    Distributes(u, w, lo);
    Distributes(u, w, hi);
  }

  /** The blend is a mean: it lies between the smallest and the largest positively weighted present score. */
  lemma BlendIsMean(ws: Weights, scores: ScoreMap, lo: real, hi: real)
    requires NonNegative(ws) && UsableWeight(ws, scores) > 0.0 && Within(ws, scores, lo, hi)
    ensures lo <= RawBlend(ws, scores) <= hi
  {
    hide WeightedTotal, UsableWeight, Within;
    WeightedBounds(ws, scores, lo, hi);
    QuotientAtMost(WeightedTotal(ws, scores), UsableWeight(ws, scores), lo);
    QuotientAtMost(WeightedTotal(ws, scores), UsableWeight(ws, scores), hi);
  }

  /** The same dimensions are scored, and none lower. */
  predicate AtLeast(ws: Weights, low: ScoreMap, high: ScoreMap) {
    forall i :: 0 <= i < |ws| ==>
      (low(ws[i].0).Some? <==> high(ws[i].0).Some?)
        && (low(ws[i].0).Some? ==> low(ws[i].0).value <= high(ws[i].0).value)
  }

  lemma ProductGrows(w: real, x: real, y: real)
    requires w >= 0.0 && x <= y
    ensures Product(w, x) <= Product(w, y)
  {}

  lemma {:induction false} TotalsGrow(ws: Weights, low: ScoreMap, high: ScoreMap)
    requires NonNegative(ws) && AtLeast(ws, low, high)
    ensures UsableWeight(ws, low) == UsableWeight(ws, high) && WeightedTotal(ws, low) <= WeightedTotal(ws, high)
  {
    if ws != [] {
      var k := |ws| - 1;
      var (d, w) := ws[k];
      hide Product;
      TotalsGrow(ws[..k], low, high);
      if low(d).Some? {
        ProductGrows(w, low(d).value, high(d).value);
      }
    }
  }

  /** Raising a score never lowers the blend, not even after rounding. */
  lemma BlendIsMonotone(ws: Weights, low: ScoreMap, high: ScoreMap)
    requires NonNegative(ws) && AtLeast(ws, low, high) && UsableWeight(ws, low) > 0.0
    ensures UsableWeight(ws, high) > 0.0
    ensures RawBlend(ws, low) <= RawBlend(ws, high)
    ensures Round4(RawBlend(ws, low)) <= Round4(RawBlend(ws, high))
  {
    hide WeightedTotal, UsableWeight, AtLeast, Round4;
    TotalsGrow(ws, low, high);
    var a, b, u := WeightedTotal(ws, low), WeightedTotal(ws, high), UsableWeight(ws, low);
    QuotientOf(b, u);
    QuotientAtMost(a, u, b / u);
    RoundMonotone(RawBlend(ws, low), RawBlend(ws, high));
  }

  lemma HalfEvenMonotone(x: real, y: real)
    requires x <= y
    ensures RoundHalfEven(x) <= RoundHalfEven(y)
  {}

  lemma RoundMonotone(x: real, y: real)
    requires x <= y
    ensures Round4(x) <= Round4(y)
  {
    HalfEvenMonotone(x * 10000.0, y * 10000.0);
  }

  lemma RoundKeepsPercent(x: real)
    requires 0.0 <= x <= 100.0
    ensures 0.0 <= Round4(x) <= 100.0
  {
    RoundMonotone(0.0, x);
    RoundMonotone(x, 100.0);
    assert Round4(0.0) == 0.0 && Round4(100.0) == 100.0;
  }

  // ----- coverage -----

  predicate AllPresent(ws: Weights, scores: ScoreMap) {
    forall i :: 0 <= i < |ws| && ws[i].1 > 0.0 ==> scores(ws[i].0).Some?
  }

  lemma {:induction false} UsableAtMostTotal(ws: Weights, scores: ScoreMap)
    requires NonNegative(ws)
    ensures 0.0 <= UsableWeight(ws, scores) <= TotalWeight(ws)
    ensures UsableWeight(ws, scores) == TotalWeight(ws) <==> AllPresent(ws, scores)
  {
    if ws != [] {
      var k := |ws| - 1;
      UsableAtMostTotal(ws[..k], scores);
      assert forall i :: 0 <= i < k ==> ws[..k][i] == ws[i];
      if AllPresent(ws[..k], scores) && (ws[k].1 > 0.0 ==> scores(ws[k].0).Some?) {
        assert AllPresent(ws, scores);
      }
    }
  }

  /** Rounding to four places gives 100 exactly from half a unit of the last place below it. */
  lemma RoundsToFull(x: real)
    requires 0.0 <= x <= 100.0
    ensures Round4(x) == 100.0 <==> x >= 99.99995
  {
    if x >= 99.99995 {
      HalfEvenMonotone(999999.5, x * 10000.0);
      HalfEvenMonotone(x * 10000.0, 1000000.0);
      assert RoundHalfEven(999999.5) == 1000000 && RoundHalfEven(1000000.0) == 1000000;
    } else {
      assert x * 10000.0 < 999999.5;
    }
  }

  lemma RawCoverageIsPercent(ws: Weights, scores: ScoreMap)
    requires NonNegative(ws)
    ensures 0.0 <= RawCoverage(ws, scores) <= 100.0
    ensures RawCoverage(ws, scores) == 100.0 <==> AllPresent(ws, scores) && TotalWeight(ws) >= 1.0
    ensures RawCoverage(ws, scores) > 0.0 ==> UsableWeight(ws, scores) > 0.0
  {
    hide UsableWeight, TotalWeight, AllPresent;
    UsableAtMostTotal(ws, scores);
    var u, m := UsableWeight(ws, scores), if TotalWeight(ws) > 1.0 then TotalWeight(ws) else 1.0;
    QuotientAtMost(u, m, 0.0);
    QuotientAtMost(u, m, 1.0);
  }

  /**
   Coverage is a percentage. Before rounding it is full exactly when every positively weighted dimension is scored
   and the weights add up to at least one; as returned it is full exactly from 99.99995 on, so a dimension of very
   small weight may be missing.
   */
  lemma CoverageIsFullIff(ws: Weights, scores: ScoreMap)
    requires NonNegative(ws)
    ensures 0.0 <= RawCoverage(ws, scores) <= 100.0 && 0.0 <= Coverage(ws, scores) <= 100.0
    ensures RawCoverage(ws, scores) == 100.0 <==> AllPresent(ws, scores) && TotalWeight(ws) >= 1.0
    ensures Coverage(ws, scores) == 100.0 <==> RawCoverage(ws, scores) >= 99.99995
  {
    hide UsableWeight, TotalWeight, AllPresent, RawCoverage, Round4;
    RawCoverageIsPercent(ws, scores);
    RoundsToFull(RawCoverage(ws, scores));
    RoundKeepsPercent(RawCoverage(ws, scores));
  }

  /** A dimension that is not scored takes its weight from the usable one. */
  lemma {:induction false} MissingWeight(ws: Weights, scores: ScoreMap, i: nat)
    requires NonNegative(ws) && i < |ws| && scores(ws[i].0).None?
    ensures UsableWeight(ws, scores) <= TotalWeight(ws) - ws[i].1
  {
    var k := |ws| - 1;
    assert forall j :: 0 <= j < k ==> ws[..k][j] == ws[j];
    if i < k {
      MissingWeight(ws[..k], scores, i);
    } else {
      UsableAtMostTotal(ws[..k], scores);
    }
  }

  lemma WeightsAddTo100(ws: Weights)
    requires ws == DEFAULT_WEIGHTS || ws == FINTECH_WEIGHTS
    ensures NonNegative(ws) && TotalWeight(ws) == 100.0
  {
    assert ws[..9] == ws;
    assert TotalWeight(ws[..0]) == 0.0;
    assert forall i :: 0 <= i < 9 ==> ws[..i + 1][..i] == ws[..i];
    assert TotalWeight(ws[..1]) == ws[0].1;
    assert TotalWeight(ws[..2]) == ws[0].1 + ws[1].1;
    assert TotalWeight(ws[..4]) == TotalWeight(ws[..2]) + ws[2].1 + ws[3].1 by {
      assert TotalWeight(ws[..3]) == TotalWeight(ws[..2]) + ws[2].1;
    }
    assert TotalWeight(ws[..6]) == TotalWeight(ws[..4]) + ws[4].1 + ws[5].1 by {
      assert TotalWeight(ws[..5]) == TotalWeight(ws[..4]) + ws[4].1;
    }
    assert TotalWeight(ws[..8]) == TotalWeight(ws[..6]) + ws[6].1 + ws[7].1 by {
      assert TotalWeight(ws[..7]) == TotalWeight(ws[..6]) + ws[6].1;
    }
  }

  lemma ProfileWeights(ws: Weights, i: nat)
    requires ws == DEFAULT_WEIGHTS || ws == FINTECH_WEIGHTS
    requires i < |ws| && ws[i].1 > 0.0
    ensures ws[i].1 >= 5.0
  {}

  /**
   Under either profile the coverage returned is full exactly when all dimensions that weigh are scored, and at most
   95 otherwise.
   */
  lemma ProfileCoverageIff(ws: Weights, scores: ScoreMap)
    requires ws == DEFAULT_WEIGHTS || ws == FINTECH_WEIGHTS
    ensures RawCoverage(ws, scores) == UsableWeight(ws, scores)
    ensures Coverage(ws, scores) == 100.0 <==> AllPresent(ws, scores)
    ensures !AllPresent(ws, scores) ==> Coverage(ws, scores) <= 95.0
  {
    hide UsableWeight, TotalWeight, Round4, DEFAULT_WEIGHTS, FINTECH_WEIGHTS;
    WeightsAddTo100(ws);
    CoverageIsFullIff(ws, scores);
    if !AllPresent(ws, scores) {
      var i :| 0 <= i < |ws| && ws[i].1 > 0.0 && scores(ws[i].0).None?;
      ProfileWeights(ws, i);
      MissingWeight(ws, scores, i);
      RoundMonotone(RawCoverage(ws, scores), 95.0);
      RoundOf95();
    }
  }

  lemma RoundOf95()
    ensures Round4(95.0) == 95.0
  {}

  // ----- the coverage of the payload -----

  const DIMENSIONS: seq<Dimension> :=
    [Completeness, Validity, Consistency, Uniqueness, Timeliness, Accuracy, Governance, Traceability, Sensitivity]

  function Scored(ds: seq<Dimension>, scores: ScoreMap): nat {
    if ds == [] then 0 else
    Scored(ds[..|ds| - 1], scores) + if scores(ds[|ds| - 1]).Some? then 1 else 0
  }

  /** `coverage_score`: the share of the dimensions that are scored, whatever they weigh. */
  function PayloadCoverage(scores: ScoreMap): real {
    Round4(Scored(DIMENSIONS, scores) as real / 9.0 * 100.0)
  }

  lemma {:induction false} ScoredIff(ds: seq<Dimension>, scores: ScoreMap)
    ensures Scored(ds, scores) <= |ds|
    ensures Scored(ds, scores) == |ds| <==> forall d :: d in ds ==> scores(d).Some?
  {
    if ds != [] {
      var k := |ds| - 1;
      ScoredIff(ds[..k], scores);
      assert ds == ds[..k] + [ds[k]];
    }
  }

  /**
   The payload's coverage is full exactly when every dimension is scored; then so is the coverage of the blend under
   either profile, but not the other way round under the default one, where two dimensions weigh nothing.
   */
  lemma PayloadCoverageIff(scores: ScoreMap)
    ensures 0.0 <= PayloadCoverage(scores) <= 100.0
    ensures PayloadCoverage(scores) == 100.0 <==> forall d: Dimension :: scores(d).Some?
    ensures PayloadCoverage(scores) == 100.0 ==> Coverage(DEFAULT_WEIGHTS, scores) == 100.0
    ensures PayloadCoverage(scores) == 100.0 <==> Coverage(FINTECH_WEIGHTS, scores) == 100.0
  {
    hide Scored, Round4, Coverage;
    var n := Scored(DIMENSIONS, scores);
    ScoredIff(DIMENSIONS, scores);
    EveryDimension();
    RoundsToFull(n as real / 9.0 * 100.0);
    RoundKeepsPercent(n as real / 9.0 * 100.0);
    ProfileCoverageIff(DEFAULT_WEIGHTS, scores);
    ProfileCoverageIff(FINTECH_WEIGHTS, scores);
    FintechWeighsAll(scores);
  }

  lemma EveryDimension()
    ensures |DIMENSIONS| == 9 && forall d: Dimension :: d in DIMENSIONS
  {
    forall d: Dimension ensures d in DIMENSIONS {
      match d
      case Completeness => assert DIMENSIONS[0] == d;
      case Validity => assert DIMENSIONS[1] == d;
      case Consistency => assert DIMENSIONS[2] == d;
      case Uniqueness => assert DIMENSIONS[3] == d;
      case Timeliness => assert DIMENSIONS[4] == d;
      case Accuracy => assert DIMENSIONS[5] == d;
      case Governance => assert DIMENSIONS[6] == d;
      case Traceability => assert DIMENSIONS[7] == d;
      case Sensitivity => assert DIMENSIONS[8] == d;
    }
  }

  lemma FintechWeighsAll(scores: ScoreMap)
    ensures AllPresent(FINTECH_WEIGHTS, scores) <==> forall d :: d in DIMENSIONS ==> scores(d).Some?
  {
    var ws := FINTECH_WEIGHTS;
    assert |ws| == |DIMENSIONS| && forall i :: 0 <= i < |ws| ==> ws[i].0 == DIMENSIONS[i] && ws[i].1 > 0.0;
  }

  // ----- dimension scores -----

  /** `null_pct` of a column: the ratio rounded to six places, then the percentage to four. */
  function NullPercent(nulls: nat, rows: nat): real {
    Round4((if rows > 0 then Round6(nulls as real / rows as real) else 0.0) * 100.0)
  }

  lemma NullPercentIsPercent(nulls: nat, rows: nat)
    requires nulls <= rows
    ensures 0.0 <= NullPercent(nulls, rows) <= 100.0
  {
    if rows > 0 {
      var q := nulls as real / rows as real;
      QuotientAtMost(nulls as real, rows as real, 1.0);
      QuotientAtMost(nulls as real, rows as real, 0.0);
      HalfEvenMonotone(0.0, q * 1000000.0);
      HalfEvenMonotone(q * 1000000.0, 1000000.0);
      RoundKeepsPercent(Round6(q) * 100.0);
    } else {
      RoundKeepsPercent(0.0);
    }
  }

  datatype ColumnMetrics = ColumnMetrics(nullPercent: real, typeMismatch: bool, classified: bool, duplicates: nat,
                                         distinctKnown: bool, sensitive: bool, hasExamples: bool)

  datatype TableMetrics = TableMetrics(rowCount: nat, freshnessSeconds: Option<nat>, schemaDrift: bool,
                                       hasSchemaHash: bool, duplicateBusinessKeys: nat)

  function Min(a: real, b: real): real { if a <= b then a else b }

  function Average(xs: seq<real>): Option<real> {
    if xs == [] then None else Some(Round4(Sum(xs) / |xs| as real))
  }

  function CompletenessValues(cols: seq<ColumnMetrics>): seq<real> {
    if cols == [] then [] else
    CompletenessValues(cols[..|cols| - 1]) + [100.0 - cols[|cols| - 1].nullPercent]
  }

  function ValidityValues(cols: seq<ColumnMetrics>): seq<real> {
    if cols == [] then [] else
    var c := cols[|cols| - 1];
    ValidityValues(cols[..|cols| - 1]) + if c.classified then [if c.typeMismatch then 60.0 else 100.0] else []
  }

  function UniquenessValues(cols: seq<ColumnMetrics>, rows: nat): seq<real>
    requires rows > 0
  {
    if cols == [] then [] else
    var c := cols[|cols| - 1];
    UniquenessValues(cols[..|cols| - 1], rows)
    + if c.distinctKnown then [Max(0.0, 100.0 - c.duplicates as real / rows as real * 100.0)] else []
  }

  predicate AnySensitive(cols: seq<ColumnMetrics>) {
    exists c :: c in cols && c.sensitive
  }

  predicate SensitiveExplained(cols: seq<ColumnMetrics>) {
    forall c :: c in cols && c.sensitive ==> c.hasExamples
  }

  /** `_dimension_scores` */
  function DimensionScore(cols: seq<ColumnMetrics>, t: TableMetrics, d: Dimension): Option<real> {
    if t.rowCount == 0 then None else
    match d
    case Completeness => Average(CompletenessValues(cols))
    case Validity => Average(ValidityValues(cols))
    case Consistency => Some(if t.schemaDrift then 65.0 else 100.0)
    case Uniqueness => Average(UniquenessValues(cols, t.rowCount))
    case Timeliness =>
      (match t.freshnessSeconds
       case None => None
       case Some(s) => Some(Max(0.0, 100.0 - Min(100.0, s as real / 3600.0 * 5.0))))
    case Accuracy =>
      Some(if t.duplicateBusinessKeys == 0 then 100.0
           else Max(0.0, 100.0 - Min(100.0, t.duplicateBusinessKeys as real)))
    case Governance => Some(if AnySensitive(cols) then 100.0 else 80.0)
    case Traceability => Some(if t.hasSchemaHash then 100.0 else 75.0)
    case Sensitivity =>
      if !AnySensitive(cols) then None else Some(if SensitiveExplained(cols) then 100.0 else 85.0)
  }

  predicate Percents(xs: seq<real>) {
    forall i :: 0 <= i < |xs| ==> 0.0 <= xs[i] <= 100.0
  }

  lemma {:induction false} SumOfPercents(xs: seq<real>)
    requires Percents(xs)
    ensures 0.0 <= Sum(xs) <= 100.0 * |xs| as real
  {
    if xs != [] {
      SumOfPercents(xs[..|xs| - 1]);
    }
  }

  lemma AverageOfPercents(xs: seq<real>)
    requires Percents(xs)
    ensures Average(xs).Some? ==> 0.0 <= Average(xs).value <= 100.0
  {
    if xs != [] {
      SumOfPercents(xs);
      var n := |xs| as real;
      QuotientAtMost(Sum(xs), n, 0.0);
      QuotientAtMost(Sum(xs), n, 100.0);
      RoundKeepsPercent(Sum(xs) / n);
    }
  }

  predicate WellFormed(cols: seq<ColumnMetrics>) {
    forall c :: c in cols ==> 0.0 <= c.nullPercent <= 100.0
  }

  lemma {:induction false} ValuesArePercents(cols: seq<ColumnMetrics>, rows: nat)
    requires WellFormed(cols) && rows > 0
    ensures Percents(CompletenessValues(cols)) && Percents(ValidityValues(cols))
    ensures Percents(UniquenessValues(cols, rows))
  {
    if cols != [] {
      ValuesArePercents(cols[..|cols| - 1], rows);
      QuotientAtMost(cols[|cols| - 1].duplicates as real, rows as real, 0.0);
    }
  }

  /** Every dimension score of a well-formed profile is a percentage. */
  lemma DimensionScoresArePercents(cols: seq<ColumnMetrics>, t: TableMetrics, d: Dimension)
    requires WellFormed(cols)
    ensures DimensionScore(cols, t, d).Some? ==> 0.0 <= DimensionScore(cols, t, d).value <= 100.0
  {
    hide Average, CompletenessValues, ValidityValues, UniquenessValues;
    if t.rowCount > 0 {
      ValuesArePercents(cols, t.rowCount);
      AverageOfPercents(CompletenessValues(cols));
      AverageOfPercents(ValidityValues(cols));
      AverageOfPercents(UniquenessValues(cols, t.rowCount));
    }
  }

  /** Consistency is always scored when there are rows, so some weight is usable exactly then. */
  lemma {:induction false} SomeWeightIsUsable(cols: seq<ColumnMetrics>, t: TableMetrics, ws: Weights)
    requires NonNegative(ws)
    ensures t.rowCount == 0 ==> UsableWeight(ws, d => DimensionScore(cols, t, d)) == 0.0
    ensures t.rowCount > 0 && (exists i :: 0 <= i < |ws| && ws[i].0 == Consistency && ws[i].1 > 0.0) ==>
              UsableWeight(ws, d => DimensionScore(cols, t, d)) > 0.0
  {
    if ws != [] {
      var k := |ws| - 1;
      SomeWeightIsUsable(cols, t, ws[..k]);
      UsableAtMostTotal(ws[..k], d => DimensionScore(cols, t, d));
      if i :| 0 <= i < |ws| && ws[i].0 == Consistency && ws[i].1 > 0.0 {
        assert i < k ==> ws[..k][i] == ws[i];
      }
    }
  }

  /** The observed score of a table under either weight profile: absent only for an empty table, else a percentage. */
  method ObservedScore(cols: seq<ColumnMetrics>, t: TableMetrics, ws: Weights) returns (score: Option<real>)
    requires WellFormed(cols)
    requires ws == DEFAULT_WEIGHTS || ws == FINTECH_WEIGHTS
    ensures score.None? <==> t.rowCount == 0
    ensures score.Some? ==> 0.0 <= score.value <= 100.0
  {
    hide DimensionScore, RawBlend, RawCoverage, Round4, TotalWeight, UsableWeight;
    var scores: ScoreMap := d => DimensionScore(cols, t, d);
    WeightsAddTo100(ws);
    assert ws[2].0 == Consistency && ws[2].1 > 0.0;
    SomeWeightIsUsable(cols, t, ws);
    var coverage;
    score, coverage := BlendScore(ws, scores);
    if score.Some? {
      forall i | 0 <= i < |ws| && scores(ws[i].0).Some? ensures 0.0 <= scores(ws[i].0).value <= 100.0 {
        DimensionScoresArePercents(cols, t, ws[i].0);
      }
      BlendIsMean(ws, scores, 0.0, 100.0);
      RoundKeepsPercent(RawBlend(ws, scores));
    }
  }
}
