/** What perfect data scores, and the meaning of the defaults. */
module ScoringPerfection {
  import opened Wrappers
  import opened ScoringModels
  import opened Totals
  import opened RuleScoring
  import opened DimensionScoring
  import opened DatasetScoring
  import opened QualityGate
  import opened PublicationCheck
  import opened ScoreAggregator
  import opened ScoringBounds
  import opened ScoringLaws

  /** A rule's own result has a score exactly when it is measured, and is never advisory. */
  lemma ScoredIffMeasured(rule: Rule, out: Output)
    requires ProcessRuleResult(rule, out).Some?
    ensures var r := ProcessRuleResult(rule, out).value;
            && (r.score.Some? <==> r.status.Measured?) && !r.advisory
            && (r.status.Measured? ==> out.status.Measured? && PartitionHolds(out.counts))
            && (out.status.Measured? && !PartitionHolds(out.counts) ==> r.status.FailedToMeasure?)
            && (!out.status.Measured? ==> r.status == out.status)
  {
    hide PartitionHolds, ProcessRuleResult;
    var status, score, violations := ProcessedAs(rule, out);
  }

  /** The status and score a result is made of. */
  lemma ProcessedAs(rule: Rule, out: Output) returns (status: Measurement, score: Option<real>, violations: int)
    requires ProcessRuleResult(rule, out).Some?
    ensures ProcessRuleResult(rule, out).value == ResultOf(rule, status, score, violations)
    ensures score.Some? <==> status.Measured?
    ensures status.Measured? ==> out.status.Measured? && PartitionHolds(out.counts)
    ensures out.status.Measured? && !PartitionHolds(out.counts) ==> status.FailedToMeasure?
    ensures !out.status.Measured? ==> status == out.status
  {
    hide PartitionHolds, ComputeRuleScore, ResultOf, Violations;
    violations := Violations(out.counts, rule.nullPolicy);
    if !out.status.Measured? {
      status, score, violations := out.status, None, 0;
    } else if !PartitionHolds(out.counts) {
      status, score := FailedToMeasure, None;
    } else {
      ScoreComesMeasured(out.counts, rule.nullPolicy);
      var r := ComputeRuleScore(out.counts, rule.nullPolicy).value;
      status, score := r.0, r.1;
    }
  }

  lemma ScoreComesMeasured(c: Counts, nullPolicy: string)
    ensures var r := ComputeRuleScore(c, nullPolicy);
            r.Some? ==> (r.value.0.Measured? <==> r.value.1.Some?) && (r.value.0.NotMeasurable? <==> r.value.1.None?)
  {
    hide Percent, Denominator;
  }

  /**
   Every expected rule measured at 100, nothing required left unmeasured, no violations, thresholds within the scale.
   */
  ghost predicate Perfect(rules: seq<RuleResult>, p: Policy) {
    && (forall r <- rules :: ExpectedRule(r) ==> MeasuredRule(r))
    && (forall r <- rules :: r.score.Some? ==> r.score.value == 100.0)
    && (forall r <- rules :: r.status.Measured? ==>
        r.violations == 0 && (r.acceptance.Some? ==> r.acceptance.value <= 100.0))
    && (forall r <- rules :: r.required ==> r.status.Measured? || r.status.NotApplicable?)
    && (exists r <- rules :: ExpectedRule(r) && PolicyWeight(p, r.dimension) > 0.0)
  }

  lemma PerfectRules(rules: seq<RuleResult>, p: Policy) returns (r: RuleResult)
    requires Perfect(rules, p)
    ensures r in rules && ExpectedRule(r) && MeasuredRule(r) && PolicyWeight(p, r.dimension) > 0.0
    ensures forall q <- rules :: ExpectedRule(q) && PolicyWeight(p, q.dimension) > 0.0 ==> MeasuredRule(q)
    ensures forall q <- rules :: MeasuredRule(q) ==> q.score == Some(100.0)
  {
    r :| r in rules && ExpectedRule(r) && PolicyWeight(p, r.dimension) > 0.0;
  }

  lemma PerfectScores(rules: seq<RuleResult>, p: Policy)
    requires Perfect(rules, p)
    ensures var s := Aggregate(rules, p, RequiredDimensions(rules), true);
            s.coverage == Some(1.0) && s.score == Some(100.0)
  {
    hide Aggregate, RequiredDimensions, ExpectedRule, MeasuredRule, PolicyWeight, Perfect;
    var r := PerfectRules(rules, p);
    var required := RequiredDimensions(rules);
    FullCoverage(rules, p, required, true);
    ScorecardBounds(rules, p, required, true, 100.0, 100.0);
    OneScored(rules, p, required, r);
  }

  lemma PerfectStates(rules: seq<RuleResult>, p: Policy)
    requires Perfect(rules, p) && Acceptable(p)
    ensures !RequiredFailure(rules) && !UnmeasuredRequired(rules) && !(exists r <- rules :: CriticalViolated(r, p))
    ensures RequiredDimensions(rules) <= ScoredDimensions(rules) <= MeasuredDimensions(rules)
  {
  }

  /** Perfect data passes the gate and is published at 100 with full coverage, under every acceptable policy. */
  lemma PerfectDataPasses(rules: seq<RuleResult>, p: Policy)
    requires Perfect(rules, p) && Acceptable(p)
    ensures var s := Aggregate(rules, p, RequiredDimensions(rules), true);
            && s.gate.GatePass? && s.publication.Published?
            && s.publishedScore == Some(100.0) && s.coverage == Some(1.0)
  {
    hide Aggregate, RequiredDimensions, ScoredDimensions, MeasuredDimensions, RequiredFailure, UnmeasuredRequired,
         CriticalViolated, Perfect, EvaluateTier, DeterminePublication;
    PerfectScores(rules, p);
    PerfectStates(rules, p);
    PublishedExactly(rules, p);
    ScorecardParts(rules, p, RequiredDimensions(rules), true);
    PerfectTier(rules, p, RequiredDimensions(rules));
  }

  lemma PerfectTier(rules: seq<RuleResult>, p: Policy, required: set<string>)
    requires Acceptable(p) && required <= MeasuredDimensions(rules)
    requires !RequiredFailure(rules) && !UnmeasuredRequired(rules) && !(exists r <- rules :: CriticalViolated(r, p))
    ensures EvaluateTier(rules, Some(100.0), Some(1.0), p, required) == ScorePass
    ensures !EvidenceInsufficient(rules, Some(100.0), Some(1.0), p, required)
  {
    hide MeasuredDimensions, CriticalViolated, RequiredFailure, UnmeasuredRequired;
  }

  lemma {:induction false} CountedTotal<T>(s: seq<T>, f: T -> real)
    requires forall x <- s :: f(x) == 1.0
    ensures Total(s, f) == |s| as real
  {
    if |s| > 0 {
      assert s[0] in s && forall x <- s[1..] :: x in s;
      CountedTotal(s[1..], f);
    }
  }

  /** Without weights in the policy, the dataset score is the plain average of the dimension scores. */
  lemma NoWeightsMeansEqualWeights(ds: seq<DimensionResult>)
    ensures var scored := Select(ds, (d: DimensionResult) => d.score.Some?);
            DatasetScore(ds, map[]) ==
              if scored == [] then None
                 else Some(Total(scored, (d: DimensionResult) => Value(d.score)) / |scored| as real)
  {
    var weights: map<string, real> := map[];
    var scored := Select(ds, (d: DimensionResult) => d.score.Some?);
    SameSelection(ds, d => MeasuredDimension(weights, d), (d: DimensionResult) => d.score.Some?);
    CountedTotal(scored, d => WeightOf(weights, d));
    SameTotal(scored, d => ScoreTerm(weights, d), (d: DimensionResult) => Value(d.score));
  }

  lemma {:induction false} SameSelection<T(!new)>(s: seq<T>, p: T -> bool, q: T -> bool)
    requires forall x <- s :: p(x) == q(x)
    ensures Select(s, p) == Select(s, q)
  {
    if |s| > 0 {
      assert s[0] in s && forall x <- s[1..] :: x in s;
      SameSelection(s[1..], p, q);
    }
  }

  lemma {:induction false} SameTotal<T>(s: seq<T>, f: T -> real, g: T -> real)
    requires forall x <- s :: f(x) == g(x)
    ensures Total(s, f) == Total(s, g)
  {
    if |s| > 0 {
      assert s[0] in s && forall x <- s[1..] :: x in s;
      SameTotal(s[1..], f, g);
    }
  }
}
