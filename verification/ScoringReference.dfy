/** The scorecard written down a second time, from the statuses, flags and numbers of the rules alone. */
module ScoringReference {
  import opened Wrappers
  import opened Ordering
  import opened ScoringModels
  import opened RuleScoring
  import opened Totals
  import opened DimensionScoring
  import opened DatasetScoring
  import opened QualityGate
  import opened PublicationCheck
  import opened ScoreAggregator
  import opened ScoringLaws
  import S = SparkCompute

  // ---- one rule --------------------------------------------------------------------------------

  /** The records that count under a null policy. */
  function Counted(c: Counts, nullPolicy: string): Option<int> {
    match nullPolicy
    case "fail" => Some(c.passed + c.failed + c.missing + c.miscast)
    case "ignore" => Some(c.passed + c.failed + c.miscast)
    case "separate" => Some(c.passed + c.failed + c.miscast)
    case "not_applicable" => Some(c.passed + c.failed + c.miscast)
    case _ => None
  }

  /** The records that do not meet the rule; missing ones only where they count as failures. */
  function Bad(c: Counts, nullPolicy: string): int {
    if nullPolicy == "fail" then c.failed + c.miscast + c.missing else c.failed + c.miscast
  }

  ghost predicate Keeps(rule: Rule, r: RuleResult) {
    && r.id == rule.id && r.dimension == rule.dimension && r.critical == rule.critical && !r.advisory
    && r.required == rule.required && r.gateEnabled == rule.gateEnabled && r.scoreEnabled == rule.scoreEnabled
    && r.primary == rule.primary && r.weight == rule.weight && r.acceptance == rule.acceptance && r.confidence == None
  }

  lemma CountedIs(c: Counts, nullPolicy: string)
    ensures Denominator(c, nullPolicy) == Counted(c, nullPolicy) && Violations(c, nullPolicy) == Bad(c, nullPolicy)
  {
  }

  lemma ResultKeeps(rule: Rule, status: Measurement, score: Option<real>, violations: int)
    ensures var r := ResultOf(rule, status, score, violations);
            Keeps(rule, r) && r.status == status && r.score == score && r.violations == violations
  {
  }

  ghost predicate Becomes(rule: Rule, r: Option<RuleResult>, status: Measurement, score: Option<real>,
                          violations: int) {
    r.Some? && Keeps(rule, r.value) && r.value.status == status && r.value.score == score
      && r.value.violations == violations
  }

  /**
   What a measurement becomes: a rule keeps its switches and thresholds; what was not measured has no score; counts that
   do not add up are a failed measurement; an unknown null policy is refused; otherwise the score is the percentage of
   the records that count, if any do.
   */
  lemma RuleExactly(rule: Rule, out: Output)
    ensures var r := ProcessRuleResult(rule, out);
            var c, n := out.counts, Counted(out.counts, rule.nullPolicy);
            var bad := Bad(c, rule.nullPolicy);
            if out.status != Measured then Becomes(rule, r, out.status, None, 0)
            else if c.passed + c.failed + c.missing + c.miscast + c.notApplicable != c.total then
              Becomes(rule, r, FailedToMeasure, None, bad)
            else if n == None then r == None
            else if n == Some(0) then Becomes(rule, r, NotMeasurable, None, bad)
            else Becomes(rule, r, Measured, Some(c.passed as real / n.value as real * 100.0), bad)
  {
    var c, bad := out.counts, Bad(out.counts, rule.nullPolicy);
    CountedIs(c, rule.nullPolicy);
    hide Denominator, Counted, Violations, Bad, ResultOf, Keeps;
    ResultKeeps(rule, out.status, None, 0);
    ResultKeeps(rule, FailedToMeasure, None, bad);
    ResultKeeps(rule, NotMeasurable, None, bad);
    var n := Counted(c, rule.nullPolicy);
    if n.Some? && n.value != 0 {
      ResultKeeps(rule, Measured, Some(c.passed as real / n.value as real * 100.0), bad);
    }
  }

  predicate Known(nullPolicy: string) {
    nullPolicy == "fail" || nullPolicy == "ignore" || nullPolicy == "separate" || nullPolicy == "not_applicable"
  }

  /** Missing values, where they count as failures. */
  function Lost(nullPolicy: string, missing: int): int {
    if nullPolicy == "fail" then missing else 0
  }

  lemma CountedAre(c: Counts, nullPolicy: string)
    ensures Counted(c, nullPolicy) ==
              if Known(nullPolicy) then Some(c.passed + c.failed + c.miscast + Lost(nullPolicy, c.missing)) else None
    ensures Bad(c, nullPolicy) == c.failed + c.miscast + Lost(nullPolicy, c.missing)
  {
  }

  /** What a rule makes of the numbers of rows in each bucket. */
  ghost predicate RowsBecome(rule: Rule, r: Option<RuleResult>, passed: int, failed: int, missing: int, miscast: int,
                             excluded: int) {
    var n := passed + failed + miscast + Lost(rule.nullPolicy, missing);
    var bad := failed + miscast + Lost(rule.nullPolicy, missing);
    if passed + failed + missing + miscast + excluded == 0 then Becomes(rule, r, NotApplicable, None, 0)
    else if !Known(rule.nullPolicy) then r == None
    else if n == 0 then Becomes(rule, r, NotMeasurable, None, bad)
    else Becomes(rule, r, Measured, Some(passed as real / n as real * 100.0), bad)
  }

  /**
   From rows to the result of a rule. Rows in scope whose value is present, well formed and known to pass are its score
   among those that count; a rule no row decides does not apply, and one that did not compile failed to be measured.
   */
  lemma RowsToResult(rule: Rule, rows: seq<S.Flags>)
    ensures RowsBecome(rule, ProcessRuleResult(rule, S.OutputOf(rule.id, Some(rows))), |Where(rows, S.Satisfying)|,
                       |Where(rows, S.Violating)|, |Where(rows, S.Lacking)|, |Where(rows, S.Malformed)|,
                       |Where(rows, S.Excluded)|)
    ensures Becomes(rule, ProcessRuleResult(rule, S.OutputOf(rule.id, None)), FailedToMeasure, None, 0)
  {
    hide Where, S.CountsOf, ProcessRuleResult, Becomes, Counted, Bad, Lost, Known;
    S.BucketsExactly(rows);
    CountedAre(S.CountsOf(rows), rule.nullPolicy);
    RuleExactly(rule, S.OutputOf(rule.id, Some(rows)));
    RuleExactly(rule, S.OutputOf(rule.id, None));
  }

  // ---- dimensions ------------------------------------------------------------------------------

  /** The rule brings a score to its dimension. */
  predicate Scores(r: RuleResult) {
    r.status == Measured && r.scoreEnabled && r.primary && !r.advisory && r.score != None && r.weight > 0.0
  }

  /** The rule was to bring one. */
  predicate ShouldScore(r: RuleResult) {
    r.status != NotApplicable && r.scoreEnabled && r.primary && !r.advisory && r.weight > 0.0
  }

  /** Sum of the weights of the rules that satisfy `p`, and of their weighted scores. */
  function WeightWhere(rules: seq<RuleResult>, p: RuleResult -> bool): real {
    if |rules| == 0 then 0.0 else (if p(rules[0]) then rules[0].weight else 0.0) + WeightWhere(rules[1..], p)
  }

  function Share(r: RuleResult): real {
    if Scores(r) then r.weight * r.score.value else 0.0
  }

  function ScoreSum(rules: seq<RuleResult>): real {
    if |rules| == 0 then 0.0 else Share(rules[0]) + ScoreSum(rules[1..])
  }

  lemma {:induction false} WeightWhereIs(rules: seq<RuleResult>, p: RuleResult -> bool, q: RuleResult -> bool)
    requires forall r :: p(r) <==> q(r)
    ensures Total(Select(rules, q), Weight) == WeightWhere(rules, p)
  {
    if |rules| > 0 {
      WeightWhereIs(rules[1..], p, q);
      SelectTotal(rules, q, Weight);
    }
  }

  lemma ShareIs(r: RuleResult)
    ensures Share(r) == if MeasuredRule(r) then WeightedScore(r) else 0.0
  {
  }

  lemma {:induction false} ScoreSumIs(rules: seq<RuleResult>)
    ensures Total(Select(rules, MeasuredRule), WeightedScore) == ScoreSum(rules)
  {
    hide MeasuredRule, WeightedScore, Share;
    if |rules| > 0 {
      ScoreSumIs(rules[1..]);
      SelectTotal(rules, MeasuredRule, WeightedScore);
      ShareIs(rules[0]);
    }
  }

  /** The rules of a dimension, in order. */
  function Of(rules: seq<RuleResult>, dimension: string): seq<RuleResult> {
    if |rules| == 0 then []
    else (if rules[0].dimension == dimension then [rules[0]] else []) + Of(rules[1..], dimension)
  }

  lemma {:induction false} OfIs(rules: seq<RuleResult>, dimension: string)
    ensures RulesOf(rules, dimension) == Of(rules, dimension)
  {
    if |rules| > 0 {
      OfIs(rules[1..], dimension);
    }
  }

  /** A quotient, where there is something to divide by. */
  function Ratio(sum: real, weight: real): Option<real> {
    if weight > 0.0 then Some(sum / weight) else None
  }

  /** The dimension's scorecard entry: its rules, their weighted mean score and the weight share that was measured. */
  ghost predicate Entry(d: DimensionResult, rules: seq<RuleResult>, weights: map<string, real>) {
    && d.rules == Of(rules, d.dimension)
    && d.score == Ratio(ScoreSum(d.rules), WeightWhere(d.rules, Scores))
    && d.coverage == Ratio(WeightWhere(d.rules, Scores), WeightWhere(d.rules, ShouldScore))
    && d.weight == if d.dimension in weights then weights[d.dimension]
                   else if Upper(d.dimension) in weights then weights[Upper(d.dimension)] else 1.0
  }

  lemma EntryIs(rules: seq<RuleResult>, name: string, weights: map<string, real>)
    ensures var d := ComputeDimensionResult(name, RulesOf(rules, name), RecordedWeight(weights, name));
            d.dimension == name && Entry(d, rules, weights)
  {
    OfIs(rules, name);
    var own := Of(rules, name);
    assert forall r :: Scores(r) <==> MeasuredRule(r);
    assert forall r :: ShouldScore(r) <==> ExpectedRule(r);
    WeightWhereIs(own, Scores, MeasuredRule);
    WeightWhereIs(own, ShouldScore, ExpectedRule);
    ScoreSumIs(own);
    hide Total, Select, WeightWhere, ScoreSum, RulesOf, Of, MeasuredRule, ExpectedRule;
  }

  /** One entry for each dimension of a rule and each required one, by name. */
  ghost predicate Entries(ds: seq<DimensionResult>, rules: seq<RuleResult>, required: set<string>,
                          weights: map<string, real>) {
    && (forall i :: 0 <= i < |ds| ==> Entry(ds[i], rules, weights))
    && (forall i, j :: 0 <= i < j < |ds| ==>
          ds[i].dimension != ds[j].dimension && Below(ds[i].dimension, ds[j].dimension))
    && (forall x :: Named(ds, x) <==> x in required || exists r <- rules :: r.dimension == x)
  }

  ghost predicate Named(ds: seq<DimensionResult>, x: string) {
    exists i :: 0 <= i < |ds| && ds[i].dimension == x
  }

  ghost predicate InOrder(names: seq<string>) {
    forall i, j :: 0 <= i < j < |names| ==> names[i] != names[j] && Below(names[i], names[j])
  }

  lemma FirstInOrder(m: string, rest: seq<string>)
    requires InOrder(rest) && forall x <- rest :: m != x && Below(m, x)
    ensures InOrder([m] + rest)
  {
    hide Below;
    var names := [m] + rest;
    forall i, j | 0 <= i < j < |names|
      ensures names[i] != names[j] && Below(names[i], names[j])
    {
      assert names[j] == rest[j - 1] && rest[j - 1] in rest;
      assert i > 0 ==> names[i] == rest[i - 1];
    }
  }

  lemma NothingInOrder()
    ensures InOrder([])
  {
  }

  lemma LeastIsBelow(s: set<string>)
    requires s != {}
    ensures forall x <- s - {Least(s)} :: Least(s) != x && Below(Least(s), x)
  {
    assert IsLeast(s, Least(s));
  }

  lemma {:induction false} NamesInOrder(s: set<string>)
    ensures InOrder(SortedNames(s))
  {
    hide Below, InOrder, Least;
    if s == {} {
      NothingInOrder();
    } else {
      NamesInOrder(s - {Least(s)});
      LeastIsBelow(s);
      FirstInOrder(Least(s), SortedNames(s - {Least(s)}));
    }
  }

  lemma EntriesAre(rules: seq<RuleResult>, required: set<string>, weights: map<string, real>)
    ensures Entries(DimensionResults(rules, SortedNames(Dimensions(rules, required)), weights), rules, required,
                    weights)
  {
    hide SortedNames, Below, Entry, ComputeDimensionResult, Named;
    var names := SortedNames(Dimensions(rules, required));
    var ds := DimensionResults(rules, names, weights);
    NamesInOrder(Dimensions(rules, required));
    forall i | 0 <= i < |ds|
      ensures Entry(ds[i], rules, weights) && ds[i].dimension == names[i]
    {
      EntryIs(rules, names[i], weights);
    }
    forall x
      ensures Named(ds, x) <==> x in required || exists r <- rules :: r.dimension == x
    {
      NamesOf(ds, names, x);
      assert x in names <==> x in Dimensions(rules, required);
    }
  }

  lemma NamesOf(ds: seq<DimensionResult>, names: seq<string>, x: string)
    requires |ds| == |names| && forall i :: 0 <= i < |ds| ==> ds[i].dimension == names[i]
    ensures x in names <==> Named(ds, x)
  {
    if x in names {
      var i :| 0 <= i < |names| && names[i] == x;
      assert ds[i].dimension == x;
    }
  }

  // ---- the data set ----------------------------------------------------------------------------

  /** The policy's weight of a dimension, 1 where it says nothing. */
  function PolicyWeight(weights: map<string, real>, dimension: string): real {
    if dimension in weights then weights[dimension] else 1.0
  }

  /** What a dimension adds to the weights, and to the weighted values: nothing without a value or a positive weight. */
  function WeightTerm(weights: map<string, real>, d: DimensionResult, value: Option<real>): real {
    if value != None && PolicyWeight(weights, d.dimension) > 0.0 then PolicyWeight(weights, d.dimension) else 0.0
  }

  function ValueTerm(weights: map<string, real>, d: DimensionResult, value: Option<real>): real {
    if value == None then 0.0 else WeightTerm(weights, d, value) * value.value
  }

  function WeightSum(ds: seq<DimensionResult>, weights: map<string, real>,
                     value: DimensionResult -> Option<real>): real {
    if |ds| == 0 then 0.0 else WeightTerm(weights, ds[0], value(ds[0])) + WeightSum(ds[1..], weights, value)
  }

  function ValueSum(ds: seq<DimensionResult>, weights: map<string, real>,
                    value: DimensionResult -> Option<real>): real {
    if |ds| == 0 then 0.0 else ValueTerm(weights, ds[0], value(ds[0])) + ValueSum(ds[1..], weights, value)
  }

  function ScoreOf(d: DimensionResult): Option<real> { d.score }

  function CoverageOf(d: DimensionResult): Option<real> { d.coverage }

  lemma {:induction false} WeightSumIs(ds: seq<DimensionResult>, weights: map<string, real>,
                                       value: DimensionResult -> Option<real>, chosen: DimensionResult -> bool,
                                       weight: DimensionResult -> real)
    requires forall d :: (if chosen(d) then weight(d) else 0.0) == WeightTerm(weights, d, value(d))
    ensures Total(Select(ds, chosen), weight) == WeightSum(ds, weights, value)
  {
    hide WeightTerm;
    if |ds| > 0 {
      WeightSumIs(ds[1..], weights, value, chosen, weight);
      SelectTotal(ds, chosen, weight);
    }
  }

  lemma {:induction false} ValueSumIs(ds: seq<DimensionResult>, weights: map<string, real>,
                                      value: DimensionResult -> Option<real>, chosen: DimensionResult -> bool,
                                      weighted: DimensionResult -> real)
    requires forall d :: (if chosen(d) then weighted(d) else 0.0) == ValueTerm(weights, d, value(d))
    ensures Total(Select(ds, chosen), weighted) == ValueSum(ds, weights, value)
  {
    hide ValueTerm;
    if |ds| > 0 {
      ValueSumIs(ds[1..], weights, value, chosen, weighted);
      SelectTotal(ds, chosen, weighted);
    }
  }

  lemma DatasetIs(ds: seq<DimensionResult>, weights: map<string, real>)
    ensures DatasetScore(ds, weights) == Ratio(ValueSum(ds, weights, ScoreOf), WeightSum(ds, weights, ScoreOf))
    ensures DatasetCoverage(ds, weights) == Ratio(ValueSum(ds, weights, CoverageOf), WeightSum(ds, weights, CoverageOf))
  {
    hide *;
    ScoreMeanIs(ds, weights);
    CoverageMeanIs(ds, weights);
  }

  lemma ScoreMeanIs(ds: seq<DimensionResult>, weights: map<string, real>)
    ensures DatasetScore(ds, weights) == Ratio(ValueSum(ds, weights, ScoreOf), WeightSum(ds, weights, ScoreOf))
  {
    hide Total, Select, WeightSum, ValueSum;
    var chosen := d => MeasuredDimension(weights, d);
    WeightSumIs(ds, weights, ScoreOf, chosen, d => WeightOf(weights, d));
    ValueSumIs(ds, weights, ScoreOf, chosen, d => ScoreTerm(weights, d));
  }

  lemma CoverageMeanIs(ds: seq<DimensionResult>, weights: map<string, real>)
    ensures DatasetCoverage(ds, weights) == Ratio(ValueSum(ds, weights, CoverageOf), WeightSum(ds, weights, CoverageOf))
  {
    hide Total, Select, WeightSum, ValueSum;
    var chosen := d => ExpectedDimension(weights, d);
    WeightSumIs(ds, weights, CoverageOf, chosen, d => WeightOf(weights, d));
    ValueSumIs(ds, weights, CoverageOf, chosen, d => CoverageTerm(weights, d));
  }

  // ---- the gate --------------------------------------------------------------------------------

  /** A required rule could not be measured for a technical reason. */
  ghost predicate Broken(rules: seq<RuleResult>) {
    exists r <- rules :: r.required && r.status == FailedToMeasure
  }

  /** The threshold a critical rule must reach, its own before the policy's. */
  function Threshold(r: RuleResult, p: Policy): Option<real> {
    match r.acceptance
    case Some(own) => Some(own)
    case None => p.criticalAcceptance
  }

  /**
   A critical rule that counts for the gate, measured with enough confidence, misses its threshold or has a violation.
   */
  ghost predicate Breach(r: RuleResult, p: Policy) {
    && r.critical && r.gateEnabled && !r.advisory && r.status == Measured
    && (r.confidence.Some? ==> r.confidence.value >= p.minCriticalConfidence)
    && match Threshold(r, p)
       case Some(least) => r.score.Some? && r.score.value < least
       case None => r.violations > 0
  }

  ghost predicate Breached(rules: seq<RuleResult>, p: Policy) {
    exists r <- rules :: Breach(r, p)
  }

  /** A required rule that could not or need not be measured. */
  ghost predicate Unmeasured(rules: seq<RuleResult>) {
    exists r <- rules ::
             r.required && (r.status == NotMeasurable || r.status == InsufficientData || r.status == SkippedByBudget)
  }

  /** Some rule of the dimension was measured with a score. */
  ghost predicate Evidence(rules: seq<RuleResult>, dimension: string) {
    exists r <- rules :: r.dimension == dimension && r.status == Measured && r.scoreEnabled && r.primary && !r.advisory
                         && r.score != None
  }

  /** Too little was measured to judge: coverage, score, a required rule or a required dimension is missing. */
  ghost predicate Thin(rules: seq<RuleResult>, s: Summary, p: Policy, required: set<string>) {
    || s.coverage == None || s.coverage.value < p.publicationThreshold || s.score == None || Unmeasured(rules)
    || exists d <- required :: !Evidence(rules, d)
  }

  /** When each gate is given. */
  ghost predicate GateIs(rules: seq<RuleResult>, s: Summary, p: Policy, required: set<string>) {
    var clean := !Broken(rules) && !Breached(rules, p) && !Thin(rules, s, p, required);
    && (s.gate == GateError <==> Broken(rules))
    && (s.gate == GateInsufficientEvidence <==> !Broken(rules) && !Breached(rules, p) && Thin(rules, s, p, required))
    && (s.gate == GateFail <==>
          !Broken(rules) && (Breached(rules, p) || (clean && s.score.value < p.warnMin)))
    && (s.gate == GateWarn <==> clean && p.warnMin <= s.score.value < p.passMin)
    && (s.gate == GatePass <==> clean && p.warnMin <= s.score.value && p.passMin <= s.score.value)
  }

  /** Which dimensions the results require. */
  lemma RequiredAre(rules: seq<RuleResult>)
    ensures forall x :: x in RequiredDimensions(rules) <==> exists r <- rules :: ShouldScore(r) && r.dimension == x
  {
  }

  lemma BreachIs(r: RuleResult, p: Policy)
    ensures CriticalViolated(r, p) <==> Breach(r, p)
  {
  }

  lemma BreachedIs(rules: seq<RuleResult>, p: Policy)
    ensures (exists r <- rules :: CriticalViolated(r, p)) <==> Breached(rules, p)
  {
    hide CriticalViolated, Breach;
    forall r | r in rules
      ensures CriticalViolated(r, p) <==> Breach(r, p)
    {
      BreachIs(r, p);
    }
  }

  lemma EvidenceIs(rules: seq<RuleResult>, required: set<string>)
    ensures required <= MeasuredDimensions(rules) <==> forall d <- required :: Evidence(rules, d)
  {
    forall d
      ensures d in MeasuredDimensions(rules) <==> Evidence(rules, d)
    {
    }
    hide MeasuredDimensions, Evidence;
  }

  lemma TierIs(rules: seq<RuleResult>, s: Summary, p: Policy, required: set<string>)
    requires s.gate == GateOf(EvaluateTier(rules, s.score, s.coverage, p, required))
    ensures GateIs(rules, s, p, required)
  {
    BreachedIs(rules, p);
    EvidenceIs(rules, required);
    assert RequiredFailure(rules) <==> Broken(rules);
    assert UnmeasuredRequired(rules) <==> Unmeasured(rules);
    hide CriticalViolated, Breached, MeasuredDimensions, Evidence, RequiredFailure, Broken, UnmeasuredRequired,
         Unmeasured;
  }

  // ---- the scorecard ---------------------------------------------------------------------------

  /** Published: assessed, judged by a score, covered enough, with every required rule and dimension measured. */
  ghost predicate MayPublish(rules: seq<RuleResult>, s: Summary, p: Policy, required: set<string>, succeeded: bool) {
    && succeeded && s.gate in {GateFail, GateWarn, GatePass}
    && s.coverage != None && p.publicationThreshold <= s.coverage.value && s.score != None
    && !Broken(rules) && !Unmeasured(rules)
    && forall x <- required :: exists d <- s.dimensions :: d.dimension == x && d.score != None
  }

  /**
   The whole scorecard of any rule results: an entry per dimension, the weighted means of their scores and coverages,
   the gate by its six conditions in their order, and publication with that very score.
   */
  lemma ScorecardExactly(rules: seq<RuleResult>, p: Policy, required: set<string>, succeeded: bool)
    ensures var s := Aggregate(rules, p, required, succeeded);
            && Entries(s.dimensions, rules, required, p.dimensionWeights)
            && s.score == Ratio(ValueSum(s.dimensions, p.dimensionWeights, ScoreOf),
                                WeightSum(s.dimensions, p.dimensionWeights, ScoreOf))
            && s.coverage == Ratio(ValueSum(s.dimensions, p.dimensionWeights, CoverageOf),
                                   WeightSum(s.dimensions, p.dimensionWeights, CoverageOf))
            && GateIs(rules, s, p, required)
            && (s.publication == Published <==> MayPublish(rules, s, p, required, succeeded))
            && s.publishedScore == (if MayPublish(rules, s, p, required, succeeded) then s.score else None)
  {
    hide SortedNames, DimensionResults, EvaluateTier, GateIs, Entries, DatasetScore, DatasetCoverage, MayPublish;
    hide WeightSum, ValueSum, Ratio, DeterminePublication, RequiredFailure, UnmeasuredRequired, GateOf;
    var s := Aggregate(rules, p, required, succeeded);
    EntriesAre(rules, required, p.dimensionWeights);
    DatasetIs(s.dimensions, p.dimensionWeights);
    ScorecardParts(rules, p, required, succeeded);
    TierIs(rules, s, p, required);
    PublicationIs(rules, s, p, required, succeeded);
  }

  lemma PublicationIs(rules: seq<RuleResult>, s: Summary, p: Policy, required: set<string>, succeeded: bool)
    requires s.allRequiredMeasured == (required <= NamesScored(s.dimensions))
    ensures DeterminePublication(succeeded, s.gate, s.score, s.coverage, p, s.allRequiredMeasured,
                                 RequiredFailure(rules), UnmeasuredRequired(rules)) ==
              if MayPublish(rules, s, p, required, succeeded) then (Published, s.score) else (Withheld, None)
  {
    assert RequiredFailure(rules) <==> Broken(rules);
    assert UnmeasuredRequired(rules) <==> Unmeasured(rules);
    hide RequiredFailure, UnmeasuredRequired, Broken, Unmeasured;
    forall x
      ensures x in NamesScored(s.dimensions) <==> exists d <- s.dimensions :: d.dimension == x && d.score != None
    {
    }
  }

  /**
   A critical rule that counts for the gate and is measured fails the whole assessment, whatever the other results are,
   when the percentage of its records misses its threshold or, without one, a single record does not meet it.
   */
  lemma CriticalRuleFailsTheGate(rule: Rule, out: Output, r: RuleResult, rules: seq<RuleResult>, p: Policy,
                                 required: set<string>, succeeded: bool)
    requires rule.critical && rule.gateEnabled && ProcessRuleResult(rule, out) == Some(r) && r in rules
    requires var c := out.counts;
             out.status == Measured && c.passed + c.failed + c.missing + c.miscast + c.notApplicable == c.total
    requires var n := Counted(out.counts, rule.nullPolicy);
             && n != None && n.value != 0
             && match (if rule.acceptance.Some? then rule.acceptance else p.criticalAcceptance)
                case Some(least) => out.counts.passed as real / n.value as real * 100.0 < least
                case None => Bad(out.counts, rule.nullPolicy) > 0
    ensures Aggregate(rules, p, required, succeeded).gate in {GateError, GateFail}
  {
    RuleExactly(rule, out);
    ScorecardExactly(rules, p, required, succeeded);
    hide Aggregate, ProcessRuleResult, Entries, MayPublish, Counted, Bad, Broken, Thin, WeightSum, ValueSum;
    assert Breach(r, p);
  }
}
