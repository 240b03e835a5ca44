/** One rule: from record counts to status and score. */
module RuleScoring {
  import opened Wrappers
  import opened ScoringModels

  predicate PartitionHolds(c: Counts) {
    c.passed + c.failed + c.missing + c.miscast + c.notApplicable == c.total
  }

  predicate FailsMissing(nullPolicy: string) {
    nullPolicy == "fail"
  }

  predicate DropsMissing(nullPolicy: string) {
    nullPolicy == "ignore" || nullPolicy == "separate" || nullPolicy == "not_applicable"
  }

  /** Records that count under a null policy; None for a policy nobody knows. */
  function Denominator(c: Counts, nullPolicy: string): Option<int> {
    if FailsMissing(nullPolicy) then Some(c.passed + c.failed + c.miscast + c.missing)
    else if DropsMissing(nullPolicy) then Some(c.passed + c.failed + c.miscast)
    else None
  }

  function Percent(passed: int, n: int): real
    requires n != 0
  {
    passed as real / n as real * 100.0
  }

  /** None stands for the ValueError of an unknown null policy. */
  function ComputeRuleScore(c: Counts, nullPolicy: string): Option<(Measurement, Option<real>)> {
    match Denominator(c, nullPolicy)
    case None => None
    case Some(n) =>
      if n == 0 then Some((NotMeasurable, None)) else Some((Measured, Some(Percent(c.passed, n))))
  }

  function Violations(c: Counts, nullPolicy: string): int {
    c.failed + c.miscast + (if FailsMissing(nullPolicy) then c.missing else 0)
  }

  function ResultOf(rule: Rule, status: Measurement, score: Option<real>, violations: int): RuleResult {
    RuleResult(rule.id, rule.dimension, status, rule.critical, false, rule.required, rule.gateEnabled,
               rule.scoreEnabled, rule.primary, rule.weight, rule.acceptance, None, score, violations)
  }

  function ProcessRuleResult(rule: Rule, out: Output): Option<RuleResult> {
    if out.status.FailedToMeasure? then Some(ResultOf(rule, FailedToMeasure, None, 0))
    else if !out.status.Measured? then Some(ResultOf(rule, out.status, None, 0))
    else if !PartitionHolds(out.counts) then
      Some(ResultOf(rule, FailedToMeasure, None, Violations(out.counts, rule.nullPolicy)))
    else
      match ComputeRuleScore(out.counts, rule.nullPolicy)
      case None => None
      case Some((status, score)) => Some(ResultOf(rule, status, score, Violations(out.counts, rule.nullPolicy)))
  }
}

/** Rules of one dimension: which count, score and coverage. */
module DimensionScoring {
  import opened Wrappers
  import opened ScoringModels
  import opened Totals

  predicate MeasuredRule(r: RuleResult) {
    r.status.Measured? && r.scoreEnabled && !r.advisory && r.primary && r.score.Some? && r.weight > 0.0
  }

  predicate ExpectedRule(r: RuleResult) {
    !r.advisory && r.scoreEnabled && !r.status.NotApplicable? && r.primary && r.weight > 0.0
  }

  function RequiredDimensions(rules: seq<RuleResult>): set<string> {
    set r <- rules | ExpectedRule(r) :: r.dimension
  }

  function Weight(r: RuleResult): real { r.weight }

  function Score(r: RuleResult): real {
    if r.score.Some? then r.score.value else 0.0
  }

  function WeightedScore(r: RuleResult): real { r.weight * Score(r) }

  function DimensionScore(rules: seq<RuleResult>): Option<real> {
    var measured := Select(rules, MeasuredRule);
    var weight := Total(measured, Weight);
    if weight > 0.0 then Some(Total(measured, WeightedScore) / weight) else None
  }

  function DimensionCoverage(rules: seq<RuleResult>): Option<real> {
    var weight := Total(Select(rules, ExpectedRule), Weight);
    if weight > 0.0 then Some(Total(Select(rules, MeasuredRule), Weight) / weight) else None
  }

  function ComputeDimensionResult(dimension: string, rules: seq<RuleResult>, weight: real): DimensionResult {
    DimensionResult(dimension, DimensionScore(rules), DimensionCoverage(rules), rules, weight)
  }
}

/** Dimensions into the dataset score and coverage. */
module DatasetScoring {
  import opened Wrappers
  import opened ScoringModels
  import opened Totals

  const DEFAULT_DIMENSION_WEIGHT := 1.0

  function WeightOf(weights: map<string, real>, d: DimensionResult): real {
    if d.dimension in weights then weights[d.dimension] else DEFAULT_DIMENSION_WEIGHT
  }

  function Value(v: Option<real>): real {
    if v.Some? then v.value else 0.0
  }

  function ScoreTerm(weights: map<string, real>, d: DimensionResult): real {
    WeightOf(weights, d) * Value(d.score)
  }

  function CoverageTerm(weights: map<string, real>, d: DimensionResult): real {
    WeightOf(weights, d) * Value(d.coverage)
  }

  predicate MeasuredDimension(weights: map<string, real>, d: DimensionResult) {
    d.score.Some? && WeightOf(weights, d) > 0.0
  }

  predicate ExpectedDimension(weights: map<string, real>, d: DimensionResult) {
    d.coverage.Some? && WeightOf(weights, d) > 0.0
  }

  function Mean(ds: seq<DimensionResult>, weight: DimensionResult -> real,
                weighted: DimensionResult -> real): Option<real> {
    var total := Total(ds, weight);
    if total > 0.0 then Some(Total(ds, weighted) / total) else None
  }

  function DatasetScore(ds: seq<DimensionResult>, weights: map<string, real>): Option<real> {
    Mean(Select(ds, d => MeasuredDimension(weights, d)), d => WeightOf(weights, d), d => ScoreTerm(weights, d))
  }

  function DatasetCoverage(ds: seq<DimensionResult>, weights: map<string, real>): Option<real> {
    Mean(Select(ds, d => ExpectedDimension(weights, d)), d => WeightOf(weights, d), d => CoverageTerm(weights, d))
  }
}

/** The gate: six tiers in strict order, two of which are reported as FAIL. */
module QualityGate {
  import opened Wrappers
  import opened ScoringModels

  datatype Tier = TechnicalError | CriticalFail | Insufficient | ScoreFail | ScoreWarn | ScorePass

  function Rank(t: Tier): nat {
    match t
    case TechnicalError => 0 case CriticalFail => 1 case Insufficient => 2
    case ScoreFail => 3 case ScoreWarn => 4 case ScorePass => 5
  }

  function GateOf(t: Tier): Gate {
    match t
    case TechnicalError => GateError
    case CriticalFail => GateFail
    case Insufficient => GateInsufficientEvidence
    case ScoreFail => GateFail
    case ScoreWarn => GateWarn
    case ScorePass => GatePass
  }

  predicate RequiredFailure(rules: seq<RuleResult>) {
    exists r <- rules :: r.required && r.status.FailedToMeasure?
  }

  predicate UnmeasuredRequired(rules: seq<RuleResult>) {
    exists r <- rules ::
             r.required && (r.status.NotMeasurable? || r.status.InsufficientData? || r.status.SkippedByBudget?)
  }

  /** The rule's own threshold wins over the policy's; with neither, any violation fails. */
  predicate CriticalViolated(r: RuleResult, p: Policy) {
    && r.critical && r.gateEnabled && !r.advisory && r.status.Measured?
    && !(r.confidence.Some? && r.confidence.value < p.minCriticalConfidence)
    && var threshold := if r.acceptance.Some? then r.acceptance else p.criticalAcceptance;
       if threshold.Some? then r.score.Some? && r.score.value < threshold.value else r.violations > 0
  }

  /** Unlike the dimension score, this does not ask for a positive weight. */
  predicate GateMeasured(r: RuleResult) {
    r.status.Measured? && r.scoreEnabled && !r.advisory && r.primary && r.score.Some?
  }

  function MeasuredDimensions(rules: seq<RuleResult>): set<string> {
    set r <- rules | GateMeasured(r) :: r.dimension
  }

  predicate EvidenceInsufficient(rules: seq<RuleResult>, score: Option<real>, coverage: Option<real>, p: Policy,
                                 required: set<string>) {
    || coverage.None? || coverage.value < p.publicationThreshold
    || score.None?
    || UnmeasuredRequired(rules)
    || !(required <= MeasuredDimensions(rules))
  }

  function EvaluateTier(rules: seq<RuleResult>, score: Option<real>, coverage: Option<real>, p: Policy,
                        required: set<string>): Tier {
    if RequiredFailure(rules) then TechnicalError
    else if exists r <- rules :: CriticalViolated(r, p) then CriticalFail
    else if EvidenceInsufficient(rules, score, coverage, p, required) then Insufficient
    else if score.value < p.warnMin then ScoreFail
    else if score.value < p.passMin then ScoreWarn
    else ScorePass
  }
}

/** Whether an assessment is published, and with which score. */
module PublicationCheck {
  import opened Wrappers
  import opened ScoringModels

  function DeterminePublication(succeeded: bool, gate: Gate, score: Option<real>, coverage: Option<real>, p: Policy,
                                allRequiredMeasured: bool, hasFailedRequired: bool, hasUnmeasuredRequired: bool)
    : (Publication, Option<real>)
  {
    if !succeeded then (Withheld, None)
    else if gate.GateError? || gate.GateInsufficientEvidence? then (Withheld, None)
    else if coverage.None? || coverage.value < p.publicationThreshold then (Withheld, None)
    else if !allRequiredMeasured then (Withheld, None)
    else if hasFailedRequired || hasUnmeasuredRequired then (Withheld, None)
    else if score.None? then (Withheld, None)
    else (Published, score)
  }
}

/** Outlier findings enter the results as advisories. */
module OutlierAdvisory {
  import opened Wrappers
  import opened ScoringModels

  const MIN_OUTLIER_SAMPLE := 4

  /** What the outlier detector reports of a column. */
  datatype OutlierInput = OutlierInput(column: string, evaluated: int, iqr: real, outliers: int, allNull: bool)

  function BuildAdvisory(inp: OutlierInput): RuleResult {
    var status := if !inp.allNull && inp.evaluated >= MIN_OUTLIER_SAMPLE && inp.iqr > 0.0 then Measured
        else NotMeasurable;
    RuleResult("outlier_iqr_" + inp.column, "ACCURACY", status, false, true, false, false, false, false, 0.0, None,
               None, None, inp.outliers)
  }

  function BuildAdvisories(inputs: seq<OutlierInput>): (r: seq<RuleResult>)
    ensures |r| == |inputs|
  {
    seq(|inputs|, i requires 0 <= i < |inputs| => BuildAdvisory(inputs[i]))
  }
}

/** Rule results into the scorecard. */
module ScoreAggregator {
  import opened Ordering
  import opened ScoringModels
  import opened Totals
  import opened DimensionScoring
  import opened DatasetScoring
  import opened QualityGate
  import opened PublicationCheck

  predicate IsLeast(s: set<string>, m: string) {
    m in s && forall x <- s :: Below(m, x)
  }

  lemma {:induction false} LeastExists(s: set<string>)
    requires s != {}
    ensures exists m :: IsLeast(s, m)
  {
    var x :| x in s;
    BelowTotal(x, x);
    if s == {x} {
      assert IsLeast(s, x);
    } else {
      LeastExists(s - {x});
      var m :| IsLeast(s - {x}, m);
      BelowTotal(m, x);
      if Below(m, x) {
        assert IsLeast(s, m);
      } else {
        forall y | y in s
          ensures Below(x, y)
        {
          if y != x { BelowTransitive(x, m, y); }
        }
        assert IsLeast(s, x);
      }
    }
  }

  lemma LeastUnique(s: set<string>)
    ensures forall a, b :: IsLeast(s, a) && IsLeast(s, b) ==> a == b
  {
    forall a, b | IsLeast(s, a) && IsLeast(s, b)
      ensures a == b
    {
      BelowAntisymmetric(a, b);
    }
  }

  function Least(s: set<string>): (m: string)
    requires s != {}
    ensures m in s
  {
    LeastExists(s);
    LeastUnique(s);
    var m :| IsLeast(s, m);
    m
  }

  /** A set of names in order. */
  function SortedNames(s: set<string>): (r: seq<string>)
    ensures forall x :: x in r <==> x in s
    ensures |r| == |s|
  {
    if s == {} then [] else [Least(s)] + SortedNames(s - {Least(s)})
  }

  function Dimensions(rules: seq<RuleResult>, required: set<string>): set<string> {
    (set r <- rules :: r.dimension) + required
  }

  function RulesOf(rules: seq<RuleResult>, dimension: string): seq<RuleResult> {
    Select(rules, (r: RuleResult) => r.dimension == dimension)
  }

  function Upper(s: string): string {
    if |s| == 0 then ""
    else [if 'a' <= s[0] <= 'z' then s[0] - 'a' + 'A' else s[0]] + Upper(s[1..])
  }

  /** The weight recorded with a dimension; unlike the dataset score it falls back to the upper-case name. */
  function RecordedWeight(weights: map<string, real>, dimension: string): real {
    if dimension in weights then weights[dimension]
    else if Upper(dimension) in weights then weights[Upper(dimension)]
    else 1.0
  }

  function DimensionResults(rules: seq<RuleResult>, names: seq<string>,
                            weights: map<string, real>): (r: seq<DimensionResult>)
    ensures |r| == |names|
  {
    seq(|names|, i requires 0 <= i < |names| =>
      ComputeDimensionResult(names[i], RulesOf(rules, names[i]), RecordedWeight(weights, names[i])))
  }

  function NamesScored(ds: seq<DimensionResult>): set<string> {
    set d <- ds | d.score.Some? :: d.dimension
  }

  function Aggregate(rules: seq<RuleResult>, p: Policy, required: set<string>, succeeded: bool): Summary {
    var ds := DimensionResults(rules, SortedNames(Dimensions(rules, required)), p.dimensionWeights);
    var score, coverage := DatasetScore(ds, p.dimensionWeights), DatasetCoverage(ds, p.dimensionWeights);
    var allMeasured := required <= NamesScored(ds);
    var failed, unmeasured := RequiredFailure(rules), UnmeasuredRequired(rules);
    var gate := GateOf(EvaluateTier(rules, score, coverage, p, required));
    var (publication, published) :=
      DeterminePublication(succeeded, gate, score, coverage, p, allMeasured, failed, unmeasured);
    Summary(score, coverage, gate, publication, published, ds, allMeasured, failed, unmeasured)
  }
}
