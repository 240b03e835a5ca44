/** Bounds of scores and coverages, and exactly when coverage is full. */
module ScoringBounds {
  import opened Wrappers
  import opened ScoringModels
  import opened Totals
  import opened RuleScoring
  import opened DimensionScoring
  import opened DatasetScoring
  import opened ScoreAggregator

  /** A measured rule scores between 0 and 100, and 100 exactly when every record that counts passed. */
  lemma RuleScoreBounds(c: Counts, nullPolicy: string)
    requires c.passed >= 0 && c.failed >= 0 && c.missing >= 0 && c.miscast >= 0
    ensures var r := ComputeRuleScore(c, nullPolicy);
            && (r.None? <==> Denominator(c, nullPolicy).None?)
            && (r.Some? ==>
                (r.value.0.Measured? <==> r.value.1.Some?) && (r.value.1.None? <==> r.value.0.NotMeasurable?))
            && (r.Some? && r.value.1.Some? ==>
                  && 0.0 <= r.value.1.value <= 100.0
                  && (r.value.1.value == 100.0 <==> Violations(c, nullPolicy) == 0)
                  && (r.value.1.value == 0.0 <==> c.passed == 0))
  {
    var n := Denominator(c, nullPolicy);
    if n.Some? && n.value > 0 {
      Percentage(c.passed, n.value);
    }
  }

  lemma Percentage(passed: int, n: int)
    requires 0 <= passed <= n && n > 0
    ensures var s := passed as real / n as real * 100.0;
            0.0 <= s <= 100.0 && (s == 100.0 <==> passed == n) && (s == 0.0 <==> passed == 0)
  {
    RatioBounds(passed as real / n as real, passed as real, n as real);
  }

  lemma RatioBounds(q: real, p: real, n: real)
    requires n > 0.0 && q * n == p && 0.0 <= p <= n
    ensures 0.0 <= q <= 1.0 && (q == 1.0 <==> p == n) && (q == 0.0 <==> p == 0.0)
  {
    Cancel(q, 1.0, n);
    Cancel(0.0, q, n);
  }

  // ---- dimensions ------------------------------------------------------------------------------

  /**
   Measured rules are expected rules, so they weigh no more, and as much only when every expected rule is measured.
   */
  lemma {:induction false} MeasuredWithinExpected(rules: seq<RuleResult>)
    ensures var m, e := Total(Select(rules, MeasuredRule), Weight), Total(Select(rules, ExpectedRule), Weight);
            && 0.0 <= m <= e
            && (m == e <==> forall r <- rules :: ExpectedRule(r) ==> MeasuredRule(r))
            && (m > 0.0 <==> exists r <- rules :: MeasuredRule(r))
            && (e > 0.0 <==> exists r <- rules :: ExpectedRule(r))
  {
    if |rules| > 0 {
      MeasuredWithinExpected(rules[1..]);
      SelectTotal(rules, MeasuredRule, Weight);
      SelectTotal(rules, ExpectedRule, Weight);
      assert rules == [rules[0]] + rules[1..];
      assert MeasuredRule(rules[0]) ==> ExpectedRule(rules[0]);
    }
  }

  lemma DimensionCoverageBounds(rules: seq<RuleResult>)
    ensures var c := DimensionCoverage(rules);
            && (c.Some? <==> exists r <- rules :: ExpectedRule(r))
            && (c.Some? ==> 0.0 <= c.value <= 1.0)
            && (c.Some? ==> (c.value == 1.0 <==> forall r <- rules :: ExpectedRule(r) ==> MeasuredRule(r)))
    ensures DimensionScore(rules).Some? <==> exists r <- rules :: MeasuredRule(r)
  {
    MeasuredWithinExpected(rules);
    var m, e := Total(Select(rules, MeasuredRule), Weight), Total(Select(rules, ExpectedRule), Weight);
    hide Total, Select;
    if e > 0.0 {
      assert Between(0.0, 1.0, e, m);
      Divide(m, e, 0.0, 1.0);
    }
  }

  /** A dimension score lies between any bounds of the measured scores it averages. */
  lemma DimensionScoreBounds(rules: seq<RuleResult>, lo: real, hi: real)
    requires forall r <- rules :: MeasuredRule(r) ==> lo <= r.score.value <= hi
    requires DimensionScore(rules).Some?
    ensures lo <= DimensionScore(rules).value <= hi
  {
    var measured := Select(rules, MeasuredRule);
    assert Weighted(measured, Weight, Score, WeightedScore, lo, hi);
    assert measured != [];
    MeanBetween(measured, Weight, Score, WeightedScore, lo, hi);
  }

  // ---- dataset ---------------------------------------------------------------------------------

  lemma MeanBounds(ds: seq<DimensionResult>, weight: DimensionResult -> real, value: DimensionResult -> real,
                   weighted: DimensionResult -> real, lo: real, hi: real)
    requires Weighted(ds, weight, value, weighted, lo, hi)
    ensures Mean(ds, weight, weighted).Some? <==> ds != []
    ensures Mean(ds, weight, weighted).Some? ==>
              lo <= Mean(ds, weight, weighted).value <= hi
              && (Mean(ds, weight, weighted).value == hi <==> AllAre(ds, value, hi))
  {
    if ds != [] { MeanBetween(ds, weight, value, weighted, lo, hi); }
  }

  /** The dataset score lies between any bounds of the dimension scores that carry weight. */
  lemma DatasetScoreBounds(ds: seq<DimensionResult>, weights: map<string, real>, lo: real, hi: real)
    requires forall d <- ds :: MeasuredDimension(weights, d) ==> lo <= d.score.value <= hi
    ensures var s := DatasetScore(ds, weights);
            && (s.Some? <==> exists d <- ds :: MeasuredDimension(weights, d))
            && (s.Some? ==> lo <= s.value <= hi)
  {
    var chosen := Select(ds, d => MeasuredDimension(weights, d));
    var w, v, wv := (d: DimensionResult) => WeightOf(weights, d), (d: DimensionResult) => Value(d.score),
                    (d: DimensionResult) => ScoreTerm(weights, d);
    assert Weighted(chosen, w, v, wv, lo, hi);
    MeanBounds(chosen, w, v, wv, lo, hi);
    SelectsSome(ds, d => MeasuredDimension(weights, d));
  }

  /**
   Dataset coverage lies in [0, 1] and is 1 exactly when every weighted dimension with a coverage is fully covered.
   */
  lemma DatasetCoverageBounds(ds: seq<DimensionResult>, weights: map<string, real>)
    requires forall d <- ds :: d.coverage.Some? ==> 0.0 <= d.coverage.value <= 1.0
    ensures var c := DatasetCoverage(ds, weights);
            && (c.Some? <==> exists d <- ds :: ExpectedDimension(weights, d))
            && (c.Some? ==> 0.0 <= c.value <= 1.0)
            && (c.Some? ==>
                (c.value == 1.0 <==> forall d <- ds :: ExpectedDimension(weights, d) ==> d.coverage == Some(1.0)))
  {
    var chosen := Select(ds, d => ExpectedDimension(weights, d));
    var w, v, wv := (d: DimensionResult) => WeightOf(weights, d), (d: DimensionResult) => Value(d.coverage),
                    (d: DimensionResult) => CoverageTerm(weights, d);
    assert Weighted(chosen, w, v, wv, 0.0, 1.0);
    MeanBounds(chosen, w, v, wv, 0.0, 1.0);
    SelectsSome(ds, d => ExpectedDimension(weights, d));
    assert AllAre(chosen, v, 1.0) <==> forall d <- ds :: ExpectedDimension(weights, d) ==> d.coverage == Some(1.0);
  }

  // ---- the scorecard ---------------------------------------------------------------------------

  function PolicyWeight(p: Policy, dimension: string): real {
    if dimension in p.dimensionWeights then p.dimensionWeights[dimension] else DEFAULT_DIMENSION_WEIGHT
  }

  lemma DimensionNamed(rules: seq<RuleResult>, required: set<string>, p: Policy, dimension: string)
    requires dimension in Dimensions(rules, required)
    ensures exists d <- DimensionResults(rules, SortedNames(Dimensions(rules, required)), p.dimensionWeights) ::
              d.dimension == dimension && d.rules == RulesOf(rules, dimension)
  {
    var names := SortedNames(Dimensions(rules, required));
    assert dimension in names;
    var i :| 0 <= i < |names| && names[i] == dimension;
    var ds := DimensionResults(rules, names, p.dimensionWeights);
    assert ds[i] in ds;
  }

  /** What every dimension result of a scorecard is. */
  lemma EachDimension(rules: seq<RuleResult>, names: seq<string>, weights: map<string, real>)
    ensures forall d <- DimensionResults(rules, names, weights) ::
              && d.rules == RulesOf(rules, d.dimension) && d.dimension in names
              && d.score == DimensionScore(d.rules) && d.coverage == DimensionCoverage(d.rules)
  {
  }

  ghost predicate Expects(rules: seq<RuleResult>, dimension: string) {
    exists r <- rules :: r.dimension == dimension && ExpectedRule(r)
  }

  ghost predicate Covered(rules: seq<RuleResult>, dimension: string) {
    forall r <- rules :: r.dimension == dimension && ExpectedRule(r) ==> MeasuredRule(r)
  }

  lemma DimensionCovered(rules: seq<RuleResult>, dimension: string)
    ensures var c := DimensionCoverage(RulesOf(rules, dimension));
            && (c.Some? <==> Expects(rules, dimension))
            && (c.Some? ==> 0.0 <= c.value <= 1.0 && (c.value == 1.0 <==> Covered(rules, dimension)))
  {
    hide MeasuredRule, ExpectedRule, DimensionCoverage;
    var own := RulesOf(rules, dimension);
    DimensionCoverageBounds(own);
    assert forall r :: r in own <==> r in rules && r.dimension == dimension;
  }

  /** Coverage in terms of the names of the dimensions. */
  ghost predicate CoverageFits(c: Option<real>, rules: seq<RuleResult>, names: set<string>, p: Policy) {
    && (c.Some? <==> exists n <- names :: Expects(rules, n) && PolicyWeight(p, n) > 0.0)
    && (c.Some? ==> 0.0 <= c.value <= 1.0)
    && (c.Some? ==>
        (c.value == 1.0 <==> forall n <- names :: Expects(rules, n) && PolicyWeight(p, n) > 0.0 ==> Covered(rules, n)))
  }

  lemma CoverageByName(rules: seq<RuleResult>, p: Policy, names: set<string>, ds: seq<DimensionResult>)
    requires forall n <- names :: exists d <- ds :: d.dimension == n
    requires forall d <- ds :: d.dimension in names
    requires forall d <- ds :: d.coverage.Some? <==> Expects(rules, d.dimension)
    requires forall d <- ds :: d.coverage.Some? ==>
               0.0 <= d.coverage.value <= 1.0 && (d.coverage.value == 1.0 <==> Covered(rules, d.dimension))
    ensures CoverageFits(DatasetCoverage(ds, p.dimensionWeights), rules, names, p)
  {
    hide DatasetCoverage, Expects, Covered;
    DatasetCoverageBounds(ds, p.dimensionWeights);
    forall n | n in names && Expects(rules, n) && PolicyWeight(p, n) > 0.0
      ensures exists d <- ds :: ExpectedDimension(p.dimensionWeights, d) && d.dimension == n
    {
    }
  }

  lemma CoverageByDimension(rules: seq<RuleResult>, p: Policy, required: set<string>)
    ensures var names := Dimensions(rules, required);
            CoverageFits(DatasetCoverage(DimensionResults(rules, SortedNames(names), p.dimensionWeights),
                                         p.dimensionWeights), rules, names, p)
  {
    var names := Dimensions(rules, required);
    var ds := DimensionResults(rules, SortedNames(names), p.dimensionWeights);
    EachDimension(rules, SortedNames(names), p.dimensionWeights);
    forall n | n in names
      ensures exists d <- ds :: d.dimension == n
    {
      DimensionNamed(rules, required, p, n);
    }
    hide DimensionCoverage, DimensionScore, DatasetCoverage, DimensionResults, SortedNames, Expects, Covered,
         Dimensions, CoverageFits, RulesOf;
    forall d | d in ds
      ensures d.coverage.Some? <==> Expects(rules, d.dimension)
      ensures d.coverage.Some? ==>
                0.0 <= d.coverage.value <= 1.0 && (d.coverage.value == 1.0 <==> Covered(rules, d.dimension))
    {
      DimensionCovered(rules, d.dimension);
    }
    CoverageByName(rules, p, names, ds);
  }

  /**
   A scorecard's coverage, where there is one, lies in [0, 1], and it is 1 exactly when every expected rule of every
   positively weighted dimension was measured.
   */
  lemma FullCoverage(rules: seq<RuleResult>, p: Policy, required: set<string>, succeeded: bool)
    ensures var c := Aggregate(rules, p, required, succeeded).coverage;
            && (c.Some? <==> exists r <- rules :: ExpectedRule(r) && PolicyWeight(p, r.dimension) > 0.0)
            && (c.Some? ==> 0.0 <= c.value <= 1.0)
            && (c.Some? ==>
                  (c.value == 1.0 <==>
                     forall r <- rules :: ExpectedRule(r) && PolicyWeight(p, r.dimension) > 0.0 ==> MeasuredRule(r)))
  {
    CoverageByDimension(rules, p, required);
    hide DatasetCoverage, DatasetScore, DimensionResults, SortedNames, MeasuredRule, ExpectedRule, PolicyWeight;
    forall r | r in rules && ExpectedRule(r)
      ensures r.dimension in Dimensions(rules, required) && Expects(rules, r.dimension)
    {
    }
  }

  /** With rule scores in [0, 100], every score of the scorecard lies in [0, 100]. */
  lemma ScorecardBounds(rules: seq<RuleResult>, p: Policy, required: set<string>, succeeded: bool, lo: real, hi: real)
    requires forall r <- rules :: MeasuredRule(r) ==> lo <= r.score.value <= hi
    ensures var s := Aggregate(rules, p, required, succeeded);
            && (s.score.Some? ==> lo <= s.score.value <= hi)
            && (forall d <- s.dimensions :: d.score.Some? ==> lo <= d.score.value <= hi)
  {
    var names := SortedNames(Dimensions(rules, required));
    var ds := DimensionResults(rules, names, p.dimensionWeights);
    EachDimension(rules, names, p.dimensionWeights);
    hide DimensionScore, DimensionCoverage, DatasetScore, DatasetCoverage, SortedNames, DimensionResults;
    forall d | d in ds && d.score.Some?
      ensures lo <= d.score.value <= hi
    {
      DimensionScoreBounds(d.rules, lo, hi);
    }
    DatasetScoreBounds(ds, p.dimensionWeights, lo, hi);
  }
}
