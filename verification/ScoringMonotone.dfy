/** Better records never make anything worse: rule, dimension, dataset, gate. */
module ScoringMonotone {
  import opened Wrappers
  import opened ScoringModels
  import opened Totals
  import opened RuleScoring
  import opened DimensionScoring
  import opened DatasetScoring
  import opened QualityGate
  import opened ScoreAggregator

  // ---- rules -----------------------------------------------------------------------------------

  /** The same result but for a score that is no lower and violations that are no more. */
  ghost predicate Better(a: RuleResult, b: RuleResult) {
    && b == a.(score := b.score, violations := b.violations)
    && (a.score.Some? <==> b.score.Some?)
    && (a.score.Some? ==> a.score.value <= b.score.value)
    && b.violations <= a.violations
  }

  ghost predicate AllBetter(a: seq<RuleResult>, b: seq<RuleResult>) {
    |a| == |b| && forall i :: 0 <= i < |a| ==> Better(a[i], b[i])
  }

  /** One record moves to passed: from failed, from miscast, or from missing. */
  ghost predicate RecordImproves(a: Counts, b: Counts) {
    || (a.failed > 0 && b == a.(failed := a.failed - 1, passed := a.passed + 1))
    || (a.miscast > 0 && b == a.(miscast := a.miscast - 1, passed := a.passed + 1))
    || (a.missing > 0 && b == a.(missing := a.missing - 1, passed := a.passed + 1))
  }

  lemma NextRatio(x: real, y: real, p: real, n: real)
    requires n > 0.0 && x * n == p && y * (n + 1.0) == p + 1.0 && p <= n
    ensures x <= y
  {
    Cancel(x, 1.0, n);
    assert x * (n + 1.0) == x * n + x;
    Cancel(x, y, n + 1.0);
  }

  lemma PercentGrows(p: int, n: int, m: int)
    requires 0 <= p <= n && n > 0 && (m == n || m == n + 1)
    ensures Percent(p, n) <= Percent(p + 1, m)
  {
    var x, y := p as real / n as real, (p + 1) as real / m as real;
    if m == n {
      QuotientsOrdered(p as real, (p + 1) as real, n as real);
    } else {
      NextRatio(x, y, p as real, n as real);
    }
  }

  /**
   A record that moves to passed never lowers the result of its rule, provided some record counted before: under `fail`
   it always did, under the other policies a lone missing record may be the first one that counts.
   */
  lemma RecordImprovesRule(rule: Rule, a: Counts, b: Counts)
    requires a.passed >= 0 && a.failed >= 0 && a.missing >= 0 && a.miscast >= 0 && RecordImproves(a, b)
    requires Denominator(a, rule.nullPolicy).Some? && Denominator(a, rule.nullPolicy).value > 0
    ensures var r, s := ProcessRuleResult(rule, Output(rule.id, a, Measured)),
            ProcessRuleResult(rule, Output(rule.id, b, Measured));
            r.Some? && s.Some? && Better(r.value, s.value)
  {
    hide Percent, FailsMissing, DropsMissing;
    PercentGrows(a.passed, Denominator(a, rule.nullPolicy).value, Denominator(b, rule.nullPolicy).value);
    ProcessMeasured(rule, a);
    ProcessMeasured(rule, b);
    hide ProcessRuleResult, Denominator;
  }

  /**
   The other case: the first record that counts at all. It was missing and dropped, and its rule goes from not
   measurable to measured, with the full score and without violations.
   */
  lemma FirstRecordMeasures(rule: Rule, a: Counts, b: Counts)
    requires a.passed >= 0 && a.failed >= 0 && a.missing >= 0 && a.miscast >= 0 && RecordImproves(a, b)
    requires Denominator(a, rule.nullPolicy) == Some(0)
    ensures DropsMissing(rule.nullPolicy) && b == a.(missing := a.missing - 1, passed := 1)
    ensures var r, s := ProcessRuleResult(rule, Output(rule.id, a, Measured)),
            ProcessRuleResult(rule, Output(rule.id, b, Measured));
            if PartitionHolds(a) then
                 r == Some(ResultOf(rule, NotMeasurable, None, 0))
                   && s == Some(ResultOf(rule, Measured, Some(100.0), 0))
            else r == s == Some(ResultOf(rule, FailedToMeasure, None, 0))
  {
    hide Percent, FailsMissing, DropsMissing;
    WholeScore();
    assert b.passed == 1 && Denominator(b, rule.nullPolicy) == Some(1);
    ProcessMeasured(rule, b);
  }

  lemma WholeScore()
    ensures Percent(1, 1) == 100.0
  {
  }

  lemma ProcessMeasured(rule: Rule, c: Counts)
    requires Denominator(c, rule.nullPolicy).Some? && Denominator(c, rule.nullPolicy).value > 0
    ensures ProcessRuleResult(rule, Output(rule.id, c, Measured)) ==
              Some(if PartitionHolds(c)
                   then ResultOf(rule, Measured, Some(Percent(c.passed, Denominator(c, rule.nullPolicy).value)),
                                 Violations(c, rule.nullPolicy))
                   else ResultOf(rule, FailedToMeasure, None, Violations(c, rule.nullPolicy)))
  {
  }

  // ---- dimensions ------------------------------------------------------------------------------

  lemma {:induction false} SelectBetter(a: seq<RuleResult>, b: seq<RuleResult>, p: RuleResult -> bool)
    requires AllBetter(a, b) && forall x, y :: Better(x, y) ==> p(x) == p(y)
    ensures AllBetter(Select(a, p), Select(b, p))
  {
    if |a| > 0 {
      assert Better(a[0], b[0]);
      SelectBetter(a[1..], b[1..], p);
    }
  }

  /** Positive weights. */
  ghost predicate AllWeigh(rules: seq<RuleResult>) {
    forall r <- rules :: r.weight > 0.0
  }

  lemma {:induction false} TotalsBetter(a: seq<RuleResult>, b: seq<RuleResult>)
    requires AllBetter(a, b) && AllWeigh(a)
    ensures Total(a, Weight) == Total(b, Weight) && Total(a, WeightedScore) <= Total(b, WeightedScore)
  {
    if |a| > 0 {
      assert a[0] in a && Better(a[0], b[0]);
      assert forall r <- a[1..] :: r in a;
      TotalsBetter(a[1..], b[1..]);
      WeightedBetter(a[0], b[0]);
      hide WeightedScore, Better, AllBetter;
    }
  }

  lemma WeightedBetter(a: RuleResult, b: RuleResult)
    requires Better(a, b) && a.weight > 0.0
    ensures WeightedScore(a) <= WeightedScore(b)
  {
    MulGrows(a.weight, Score(a), Score(b));
  }

  lemma MulGrows(w: real, a: real, b: real)
    requires w > 0.0 && a <= b
    ensures w * a <= w * b
  {
    assert w * b - w * a == w * (b - a);
  }

  /** Dimension by dimension: the same coverage, and a score that is no lower. */
  lemma DimensionBetter(a: seq<RuleResult>, b: seq<RuleResult>)
    requires AllBetter(a, b)
    ensures DimensionCoverage(a) == DimensionCoverage(b)
    ensures DimensionScore(a).Some? <==> DimensionScore(b).Some?
    ensures DimensionScore(a).Some? ==> DimensionScore(a).value <= DimensionScore(b).value
  {
    SelectBetter(a, b, MeasuredRule);
    SelectBetter(a, b, ExpectedRule);
    var m, n := Select(a, MeasuredRule), Select(b, MeasuredRule);
    assert AllWeigh(m) && AllWeigh(Select(a, ExpectedRule));
    TotalsBetter(m, n);
    TotalsBetter(Select(a, ExpectedRule), Select(b, ExpectedRule));
    hide Select, AllBetter, AllWeigh;
    if Total(m, Weight) > 0.0 { QuotientsOrdered(Total(m, WeightedScore), Total(n, WeightedScore), Total(m, Weight)); }
  }

  // ---- dataset ---------------------------------------------------------------------------------

  ghost predicate DimensionsBetter(a: seq<DimensionResult>, b: seq<DimensionResult>) {
    && |a| == |b|
    && forall i :: 0 <= i < |a| ==>
         a[i].dimension == b[i].dimension && a[i].coverage == b[i].coverage && ScoreBetter(a[i].score, b[i].score)
  }

  ghost predicate ScoreBetter(a: Option<real>, b: Option<real>) {
    (a.Some? <==> b.Some?) && (a.Some? ==> a.value <= b.value)
  }

  lemma {:induction false} SelectDimensions(a: seq<DimensionResult>, b: seq<DimensionResult>,
                                            p: DimensionResult -> bool)
    requires DimensionsBetter(a, b) && forall i :: 0 <= i < |a| ==> p(a[i]) == p(b[i])
    ensures DimensionsBetter(Select(a, p), Select(b, p))
  {
    if |a| > 0 {
      SelectDimensions(a[1..], b[1..], p);
    }
  }

  lemma SelectBoth(a: seq<DimensionResult>, b: seq<DimensionResult>, weights: map<string, real>)
    requires DimensionsBetter(a, b)
    ensures DimensionsBetter(Select(a, d => MeasuredDimension(weights, d)),
                             Select(b, d => MeasuredDimension(weights, d)))
    ensures DimensionsBetter(Select(a, d => ExpectedDimension(weights, d)),
                             Select(b, d => ExpectedDimension(weights, d)))
  {
    hide Select;
    forall i | 0 <= i < |a|
      ensures MeasuredDimension(weights, a[i]) == MeasuredDimension(weights, b[i])
      ensures ExpectedDimension(weights, a[i]) == ExpectedDimension(weights, b[i])
    {
      assert WeightOf(weights, a[i]) == WeightOf(weights, b[i]);
    }
    hide MeasuredDimension, ExpectedDimension, DimensionsBetter;
    SelectDimensions(a, b, d => MeasuredDimension(weights, d));
    SelectDimensions(a, b, d => ExpectedDimension(weights, d));
  }

  lemma DimensionPair(a: DimensionResult, b: DimensionResult, weights: map<string, real>)
    requires a.dimension == b.dimension && a.coverage == b.coverage && ScoreBetter(a.score, b.score)
             && WeightOf(weights, a) > 0.0
    ensures WeightOf(weights, a) == WeightOf(weights, b) && CoverageTerm(weights, a) == CoverageTerm(weights, b)
    ensures ScoreTerm(weights, a) <= ScoreTerm(weights, b)
  {
    var w := WeightOf(weights, a);
    assert w == WeightOf(weights, b);
    hide WeightOf;
    MulGrows(w, Value(a.score), Value(b.score));
  }

  lemma DimensionTotals(a: seq<DimensionResult>, b: seq<DimensionResult>, weights: map<string, real>)
    requires DimensionsBetter(a, b) && forall d <- a :: WeightOf(weights, d) > 0.0
    ensures Total(a, d => WeightOf(weights, d)) == Total(b, d => WeightOf(weights, d))
    ensures Total(a, d => CoverageTerm(weights, d)) == Total(b, d => CoverageTerm(weights, d))
    ensures Total(a, d => ScoreTerm(weights, d)) <= Total(b, d => ScoreTerm(weights, d))
  {
    hide Total, WeightOf, CoverageTerm, ScoreTerm;
    forall i | 0 <= i < |a|
      ensures WeightOf(weights, a[i]) == WeightOf(weights, b[i])
              && CoverageTerm(weights, a[i]) == CoverageTerm(weights, b[i])
      ensures ScoreTerm(weights, a[i]) <= ScoreTerm(weights, b[i])
    {
      assert a[i] in a;
      DimensionPair(a[i], b[i], weights);
    }
    hide DimensionsBetter, ScoreBetter;
    TotalPairwise(a, b, d => WeightOf(weights, d));
    TotalPairwise(a, b, d => CoverageTerm(weights, d));
    TotalPairwise(a, b, d => ScoreTerm(weights, d));
  }

  lemma DatasetBetter(a: seq<DimensionResult>, b: seq<DimensionResult>, weights: map<string, real>)
    requires DimensionsBetter(a, b)
    ensures DatasetCoverage(a, weights) == DatasetCoverage(b, weights)
    ensures ScoreBetter(DatasetScore(a, weights), DatasetScore(b, weights))
  {
    SelectBoth(a, b, weights);
    var m, n := Select(a, d => MeasuredDimension(weights, d)), Select(b, d => MeasuredDimension(weights, d));
    DimensionTotals(m, n, weights);
    DimensionTotals(Select(a, d => ExpectedDimension(weights, d)), Select(b, d => ExpectedDimension(weights, d)),
                    weights);
    hide DimensionsBetter, Select, MeasuredDimension, ExpectedDimension;
    var w := Total(m, d => WeightOf(weights, d));
    if w > 0.0 {
      QuotientsOrdered(Total(m, d => ScoreTerm(weights, d)), Total(n, d => ScoreTerm(weights, d)), w);
    }
  }

  // ---- gate and scorecard ----------------------------------------------------------------------

  lemma SameKind(a: RuleResult, b: RuleResult)
    requires Better(a, b)
    ensures a.dimension == b.dimension && ExpectedRule(a) == ExpectedRule(b) && GateMeasured(a) == GateMeasured(b)
  {
  }

  lemma DimensionsWithin(a: seq<RuleResult>, b: seq<RuleResult>, required: set<string>)
    requires |a| == |b|
    requires forall i :: 0 <= i < |a| ==>
               a[i].dimension == b[i].dimension && ExpectedRule(a[i]) == ExpectedRule(b[i])
                 && GateMeasured(a[i]) == GateMeasured(b[i])
    ensures Dimensions(a, required) <= Dimensions(b, required) && RequiredDimensions(a) <= RequiredDimensions(b)
    ensures MeasuredDimensions(a) <= MeasuredDimensions(b)
  {
    hide ExpectedRule, GateMeasured;
    assert forall i :: 0 <= i < |a| ==> b[i] in b;
  }

  lemma SameDimensions(a: seq<RuleResult>, b: seq<RuleResult>, required: set<string>)
    requires AllBetter(a, b)
    ensures Dimensions(a, required) == Dimensions(b, required) && RequiredDimensions(a) == RequiredDimensions(b)
    ensures MeasuredDimensions(a) == MeasuredDimensions(b)
  {
    hide Dimensions, RequiredDimensions, MeasuredDimensions, Better, ExpectedRule, GateMeasured;
    forall i | 0 <= i < |a|
      ensures a[i].dimension == b[i].dimension && ExpectedRule(a[i]) == ExpectedRule(b[i])
              && GateMeasured(a[i]) == GateMeasured(b[i])
    {
      SameKind(a[i], b[i]);
    }
    DimensionsWithin(a, b, required);
    DimensionsWithin(b, a, required);
  }

  lemma BetterStates(a: RuleResult, b: RuleResult, p: Policy)
    requires Better(a, b)
    ensures b.status == a.status && b.required == a.required
    ensures CriticalViolated(b, p) ==> CriticalViolated(a, p)
  {
  }

  lemma CriticalBetter(a: seq<RuleResult>, b: seq<RuleResult>, p: Policy)
    requires AllBetter(a, b) && exists r <- b :: CriticalViolated(r, p)
    ensures exists r <- a :: CriticalViolated(r, p)
  {
    hide CriticalViolated, Better;
    var i :| 0 <= i < |b| && CriticalViolated(b[i], p);
    BetterStates(a[i], b[i], p);
    assert a[i] in a;
  }

  lemma StatesBetter(a: seq<RuleResult>, b: seq<RuleResult>, p: Policy)
    requires AllBetter(a, b)
    ensures RequiredFailure(a) == RequiredFailure(b) && UnmeasuredRequired(a) == UnmeasuredRequired(b)
  {
    hide CriticalViolated, Better;
    forall i | 0 <= i < |a|
      ensures b[i].status == a[i].status && b[i].required == a[i].required && a[i] in a && b[i] in b
    {
      BetterStates(a[i], b[i], p);
    }
    hide AllBetter;
    SameStates(a, b);
    SameStates(b, a);
  }

  lemma SameStates(a: seq<RuleResult>, b: seq<RuleResult>)
    requires |a| == |b| && forall i :: 0 <= i < |a| ==> b[i].status == a[i].status && b[i].required == a[i].required
    ensures RequiredFailure(a) ==> RequiredFailure(b)
    ensures UnmeasuredRequired(a) ==> UnmeasuredRequired(b)
  {
    if RequiredFailure(a) {
      var i :| 0 <= i < |a| && a[i].required && a[i].status.FailedToMeasure?;
      assert b[i] in b;
    }
    if UnmeasuredRequired(a) {
      var i :| 0 <= i < |a| && a[i].required && (a[i].status.NotMeasurable? || a[i].status.InsufficientData?
                                                 || a[i].status.SkippedByBudget?);
      assert b[i] in b;
    }
  }

  lemma TierBetter(a: seq<RuleResult>, b: seq<RuleResult>, s: Option<real>, t: Option<real>, coverage: Option<real>,
                   p: Policy, required: set<string>)
    requires AllBetter(a, b) && ScoreBetter(s, t)
    ensures Rank(EvaluateTier(a, s, coverage, p, required)) <= Rank(EvaluateTier(b, t, coverage, p, required))
  {
    hide MeasuredDimensions, CriticalViolated, RequiredFailure, UnmeasuredRequired, AllBetter;
    SameDimensions(a, b, required);
    StatesBetter(a, b, p);
    if exists r <- b :: CriticalViolated(r, p) {
      CriticalBetter(a, b, p);
    } else {
      hide Dimensions, RequiredDimensions;
    }
  }

  lemma DimensionResultsBetter(a: seq<RuleResult>, b: seq<RuleResult>, names: seq<string>, weights: map<string, real>)
    requires AllBetter(a, b)
    ensures DimensionsBetter(DimensionResults(a, names, weights), DimensionResults(b, names, weights))
  {
    hide DimensionScore, DimensionCoverage, AllBetter, RecordedWeight;
    forall i | 0 <= i < |names|
      ensures DimensionCoverage(RulesOf(a, names[i])) == DimensionCoverage(RulesOf(b, names[i]))
      ensures ScoreBetter(DimensionScore(RulesOf(a, names[i])), DimensionScore(RulesOf(b, names[i])))
    {
      SelectBetter(a, b, (r: RuleResult) => r.dimension == names[i]);
      DimensionBetter(RulesOf(a, names[i]), RulesOf(b, names[i]));
    }
  }

  /**
   Results that are better one by one keep the coverage, never lower a dimension score or the dataset score, and never
   move the gate to an earlier tier.
   */
  lemma BetterResultsBetterScorecard(a: seq<RuleResult>, b: seq<RuleResult>, p: Policy, required: set<string>,
                                     succeeded: bool)
    requires AllBetter(a, b)
    ensures var s, t := Aggregate(a, p, required, succeeded), Aggregate(b, p, required, succeeded);
            && s.coverage == t.coverage && ScoreBetter(s.score, t.score) && DimensionsBetter(s.dimensions, t.dimensions)
            && Rank(EvaluateTier(a, s.score, s.coverage, p, required)) <=
                 Rank(EvaluateTier(b, t.score, t.coverage, p, required))
  {
    SameDimensions(a, b, required);
    var names := SortedNames(Dimensions(a, required));
    var ds, es := DimensionResults(a, names, p.dimensionWeights), DimensionResults(b, names, p.dimensionWeights);
    hide Better, DimensionsBetter, DatasetScore, DatasetCoverage, DimensionResults, EvaluateTier, SortedNames,
         Dimensions, AllBetter;
    DimensionResultsBetter(a, b, names, p.dimensionWeights);
    DatasetBetter(ds, es, p.dimensionWeights);
    TierBetter(a, b, DatasetScore(ds, p.dimensionWeights), DatasetScore(es, p.dimensionWeights),
               DatasetCoverage(ds, p.dimensionWeights), p, required);
  }

  /** One record of one rule moves to passed: nothing in the whole scorecard gets worse. */
  lemma RecordImprovesScorecard(rules: seq<RuleResult>, i: nat, rule: Rule, a: Counts, b: Counts, p: Policy,
                                succeeded: bool)
    requires a.passed >= 0 && a.failed >= 0 && a.missing >= 0 && a.miscast >= 0 && RecordImproves(a, b)
    requires Denominator(a, rule.nullPolicy).Some? && Denominator(a, rule.nullPolicy).value > 0
    requires i < |rules| && ProcessRuleResult(rule, Output(rule.id, a, Measured)) == Some(rules[i])
    ensures ProcessRuleResult(rule, Output(rule.id, b, Measured)).Some?
    ensures var after := rules[i := ProcessRuleResult(rule, Output(rule.id, b, Measured)).value];
            var required := RequiredDimensions(rules);
            var s, t := Aggregate(rules, p, required, succeeded),
                Aggregate(after, p, RequiredDimensions(after), succeeded);
            && s.coverage == t.coverage && ScoreBetter(s.score, t.score) && DimensionsBetter(s.dimensions, t.dimensions)
            && Rank(EvaluateTier(rules, s.score, s.coverage, p, required)) <=
                 Rank(EvaluateTier(after, t.score, t.coverage, p, required))
  {
    RecordImprovesRule(rule, a, b);
    var after := rules[i := ProcessRuleResult(rule, Output(rule.id, b, Measured)).value];
    hide ProcessRuleResult, Aggregate, EvaluateTier, RequiredDimensions, DimensionsBetter;
    assert AllBetter(rules, after);
    SameDimensions(rules, after, {});
    BetterResultsBetterScorecard(rules, after, p, RequiredDimensions(rules), succeeded);
  }
}
