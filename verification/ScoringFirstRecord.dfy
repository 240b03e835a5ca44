/**
 The first record of a rule that counts turns it from not measurable into measured at 100. A new full mark enters its
 dimension and maybe its dimension the dataset: averages of marks up to 100 never fall when a 100 joins them.
 */
module ScoringFirstRecord {
  import opened Wrappers
  import opened ScoringModels
  import opened Totals
  import opened RuleScoring
  import opened DimensionScoring
  import opened DatasetScoring
  import opened QualityGate
  import opened ScoreAggregator
  import opened ScoringMonotone

  // ---- averages that take in full marks --------------------------------------------------------

  /** Weight and points of an average within [0, 100]. */
  ghost predicate Fair(weight: real, points: real) {
    0.0 <= weight && 0.0 <= points <= 100.0 * weight
  }

  /** Whatever weight joins brings full marks, and the points there are do not fall. */
  ghost predicate Joins(weight: real, points: real, weight': real, points': real) {
    weight <= weight' && points + 100.0 * (weight' - weight) <= points'
  }

  lemma {:induction false} TotalsFair<T(!new)>(a: seq<T>, w: T -> real, s: T -> real)
    requires forall x :: x in a ==> Fair(w(x), s(x))
    ensures Fair(Total(a, w), Total(a, s))
  {
    if |a| > 0 {
      assert forall x :: x in a[1..] ==> x in a;
      TotalsFair(a[1..], w, s);
    }
  }

  lemma {:induction false} TotalsJoin<T(!new)>(a: seq<T>, b: seq<T>, w: T -> real, s: T -> real)
    requires |a| == |b| && forall i :: 0 <= i < |a| ==> Joins(w(a[i]), s(a[i]), w(b[i]), s(b[i]))
    ensures Joins(Total(a, w), Total(a, s), Total(b, w), Total(b, s))
  {
    if |a| > 0 {
      TotalsJoin(a[1..], b[1..], w, s);
    }
  }

  lemma MeanFair(w: real, s: real)
    requires Fair(w, s) && w > 0.0
    ensures s / w * w == s && 0.0 <= s / w <= 100.0
  {
    var x := s / w;
    assert x * w == s;
    Cancel(x, 100.0, w);
    Cancel(0.0, x, w);
  }

  /** The average, when anything weighs. */
  function Average(points: real, weight: real): Option<real> {
    if weight > 0.0 then Some(points / weight) else None
  }

  /** Full marks that join never lower an average; an average of nothing but them is 100. */
  lemma AverageRises(w: real, s: real, w': real, s': real)
    requires Fair(w, s) && Fair(w', s') && Joins(w, s, w', s')
    ensures Rises(Average(s, w), Average(s', w')) && Scaled(Average(s, w)) && Scaled(Average(s', w'))
  {
    if w > 0.0 { MeanFair(w, s); }
    if w' > 0.0 {
      MeanFair(w', s');
      if w > 0.0 {
        MeanOrder(s / w, s' / w', w, s, w' - w, s');
      } else {
        Cancel(s' / w', 100.0, w');
      }
    }
  }

  lemma MeanOrder(x: real, y: real, w: real, s: real, d: real, s': real)
    requires w > 0.0 && d >= 0.0 && x * w == s && x <= 100.0 && y * (w + d) == s' && s + 100.0 * d <= s'
    ensures x <= y
  {
    MulGrowsAtLeast(d, x, 100.0);
    assert x * (w + d) == x * w + x * d;
    Cancel(x, y, w + d);
  }

  lemma MulGrowsAtLeast(w: real, a: real, b: real)
    requires w >= 0.0 && a <= b
    ensures a * w <= b * w
  {
    assert b * w - a * w == (b - a) * w;
  }

  lemma FairProduct(w: real, v: real)
    requires w >= 0.0 && 0.0 <= v <= 100.0
    ensures Fair(w, w * v)
  {
    MulGrowsAtLeast(w, v, 100.0);
    MulGrowsAtLeast(w, 0.0, v);
  }

  /** A sum over what is selected is a sum over everything in which the rest counts nothing. */
  lemma {:induction false} TotalSelected<T(!new)>(a: seq<T>, p: T -> bool, f: T -> real, g: T -> real)
    requires forall x :: g(x) == if p(x) then f(x) else 0.0
    ensures Total(Select(a, p), f) == Total(a, g)
  {
    if |a| > 0 {
      TotalSelected(a[1..], p, f, g);
      SelectFirst(a, p);
    }
  }

  lemma SelectFirst<T(!new)>(a: seq<T>, p: T -> bool)
    requires |a| > 0
    ensures Select(a, p) == if p(a[0]) then [a[0]] + Select(a[1..], p) else Select(a[1..], p)
    ensures p(a[0]) ==> Select(a, p)[0] == a[0] && Select(a, p)[1..] == Select(a[1..], p)
  {
  }

  // ---- a rule gets its full mark ---------------------------------------------------------------

  /** The same result, or one that was not measurable and now is measured at 100 without violations. */
  ghost predicate Marked(x: RuleResult, y: RuleResult) {
    x == y || (x.status.NotMeasurable? && x.score.None?
               && y == x.(status := Measured, score := Some(100.0), violations := 0))
  }

  ghost predicate AllMarked(a: seq<RuleResult>, b: seq<RuleResult>) {
    |a| == |b| && forall i :: 0 <= i < |a| ==> Marked(a[i], b[i])
  }

  /** Scores within the scale. */
  ghost predicate OnScale(a: seq<RuleResult>) {
    forall r <- a :: r.score.Some? ==> 0.0 <= r.score.value <= 100.0
  }

  lemma {:induction false} SelectMarked(a: seq<RuleResult>, b: seq<RuleResult>, p: RuleResult -> bool)
    requires AllMarked(a, b) && forall x, y :: Marked(x, y) ==> p(x) == p(y)
    ensures AllMarked(Select(a, p), Select(b, p))
  {
    if |a| > 0 {
      assert Marked(a[0], b[0]);
      SelectMarked(a[1..], b[1..], p);
      SelectFirst(a, p);
      SelectFirst(b, p);
      hide Select, Marked;
    }
  }

  function MeasuredWeight(r: RuleResult): real { if MeasuredRule(r) then Weight(r) else 0.0 }
  function MeasuredPoints(r: RuleResult): real { if MeasuredRule(r) then WeightedScore(r) else 0.0 }
  function ExpectedWeight(r: RuleResult): real { if ExpectedRule(r) then Weight(r) else 0.0 }

  lemma MarkJoins(x: RuleResult, y: RuleResult)
    requires Marked(x, y)
    ensures Joins(MeasuredWeight(x), MeasuredPoints(x), MeasuredWeight(y), MeasuredPoints(y))
    ensures ExpectedWeight(x) == ExpectedWeight(y)
  {
  }

  lemma MarkFair(r: RuleResult)
    requires r.score.Some? ==> 0.0 <= r.score.value <= 100.0
    ensures Fair(MeasuredWeight(r), MeasuredPoints(r))
  {
    if MeasuredRule(r) { FairProduct(r.weight, r.score.value); }
  }

  lemma MarkedTotals(a: seq<RuleResult>, b: seq<RuleResult>)
    requires AllMarked(a, b) && OnScale(a) && OnScale(b)
    ensures Total(Select(a, ExpectedRule), Weight) == Total(Select(b, ExpectedRule), Weight)
    ensures Fair(Total(Select(a, MeasuredRule), Weight), Total(Select(a, MeasuredRule), WeightedScore))
    ensures Fair(Total(Select(b, MeasuredRule), Weight), Total(Select(b, MeasuredRule), WeightedScore))
    ensures Joins(Total(Select(a, MeasuredRule), Weight), Total(Select(a, MeasuredRule), WeightedScore),
                  Total(Select(b, MeasuredRule), Weight), Total(Select(b, MeasuredRule), WeightedScore))
  {
    hide Marked, Total, Select, MeasuredRule, ExpectedRule, Weight, WeightedScore, Fair, Joins;
    forall i | 0 <= i < |a|
      ensures Joins(MeasuredWeight(a[i]), MeasuredPoints(a[i]), MeasuredWeight(b[i]), MeasuredPoints(b[i]))
      ensures ExpectedWeight(a[i]) == ExpectedWeight(b[i])
    {
      MarkJoins(a[i], b[i]);
    }
    forall r: RuleResult | r.score.Some? ==> 0.0 <= r.score.value <= 100.0
      ensures Fair(MeasuredWeight(r), MeasuredPoints(r))
    {
      MarkFair(r);
    }
    TotalSelected(a, MeasuredRule, Weight, MeasuredWeight);
    TotalSelected(a, MeasuredRule, WeightedScore, MeasuredPoints);
    TotalSelected(b, MeasuredRule, Weight, MeasuredWeight);
    TotalSelected(b, MeasuredRule, WeightedScore, MeasuredPoints);
    TotalSelected(a, ExpectedRule, Weight, ExpectedWeight);
    TotalSelected(b, ExpectedRule, Weight, ExpectedWeight);
    hide MeasuredWeight, MeasuredPoints, ExpectedWeight;
    TotalsFair(a, MeasuredWeight, MeasuredPoints);
    TotalsFair(b, MeasuredWeight, MeasuredPoints);
    TotalsJoin(a, b, MeasuredWeight, MeasuredPoints);
    TotalPairwise(a, b, ExpectedWeight);
  }

  // ---- dimensions ------------------------------------------------------------------------------

  /** A score or coverage that is no lower; one that appears is the full mark. */
  ghost predicate Rises(x: Option<real>, y: Option<real>) {
    && (x.Some? ==> y.Some? && x.value <= y.value)
    && (x.None? && y.Some? ==> y.value == 100.0)
  }

  ghost predicate Scaled(x: Option<real>) {
    x.Some? ==> 0.0 <= x.value <= 100.0
  }

  ghost predicate CoverageRises(x: Option<real>, y: Option<real>) {
    (x.Some? <==> y.Some?) && (x.Some? ==> x.value <= y.value)
  }

  lemma DimensionMarked(a: seq<RuleResult>, b: seq<RuleResult>)
    requires AllMarked(a, b) && OnScale(a) && OnScale(b)
    ensures Rises(DimensionScore(a), DimensionScore(b)) && CoverageRises(DimensionCoverage(a), DimensionCoverage(b))
    ensures Scaled(DimensionScore(a)) && Scaled(DimensionScore(b))
  {
    hide AllMarked, OnScale, Select, Total, MeasuredRule, ExpectedRule, Weight, WeightedScore, Fair, Joins, Rises,
         Scaled;
    MarkedTotals(a, b);
    var w, s := Total(Select(a, MeasuredRule), Weight), Total(Select(a, MeasuredRule), WeightedScore);
    var w', s' := Total(Select(b, MeasuredRule), Weight), Total(Select(b, MeasuredRule), WeightedScore);
    AverageRises(w, s, w', s');
    WeightRises(w, s, w', s');
    var e := Total(Select(a, ExpectedRule), Weight);
    if e > 0.0 { QuotientsOrdered(w, w', e); }
  }

  lemma WeightRises(w: real, s: real, w': real, s': real)
    requires Joins(w, s, w', s')
    ensures w <= w'
  {
  }

  ghost predicate DimensionsRise(a: seq<DimensionResult>, b: seq<DimensionResult>) {
    && |a| == |b|
    && forall i :: 0 <= i < |a| ==>
         && a[i].dimension == b[i].dimension && Rises(a[i].score, b[i].score)
            && CoverageRises(a[i].coverage, b[i].coverage)
         && Scaled(a[i].score) && Scaled(b[i].score)
  }

  lemma ScaledGroup(a: seq<RuleResult>, n: string)
    requires OnScale(a)
    ensures OnScale(RulesOf(a, n))
  {
  }

  lemma DimensionResultsRise(a: seq<RuleResult>, b: seq<RuleResult>, names: seq<string>, weights: map<string, real>)
    requires AllMarked(a, b) && OnScale(a) && OnScale(b)
    ensures DimensionsRise(DimensionResults(a, names, weights), DimensionResults(b, names, weights))
  {
    hide DimensionScore, DimensionCoverage, AllMarked, RecordedWeight, OnScale, Rises, CoverageRises, Scaled;
    forall i | 0 <= i < |names|
      ensures Rises(DimensionScore(RulesOf(a, names[i])), DimensionScore(RulesOf(b, names[i])))
      ensures CoverageRises(DimensionCoverage(RulesOf(a, names[i])), DimensionCoverage(RulesOf(b, names[i])))
      ensures Scaled(DimensionScore(RulesOf(a, names[i]))) && Scaled(DimensionScore(RulesOf(b, names[i])))
    {
      SelectMarked(a, b, (r: RuleResult) => r.dimension == names[i]);
      ScaledGroup(a, names[i]);
      ScaledGroup(b, names[i]);
      DimensionMarked(RulesOf(a, names[i]), RulesOf(b, names[i]));
    }
  }

  // ---- dataset ---------------------------------------------------------------------------------

  function ScoredWeight(weights: map<string, real>, d: DimensionResult): real {
    if MeasuredDimension(weights, d) then WeightOf(weights, d) else 0.0
  }

  function ScoredPoints(weights: map<string, real>, d: DimensionResult): real {
    if MeasuredDimension(weights, d) then ScoreTerm(weights, d) else 0.0
  }

  function CoveredWeight(weights: map<string, real>, d: DimensionResult): real {
    if ExpectedDimension(weights, d) then WeightOf(weights, d) else 0.0
  }

  function CoveredPart(weights: map<string, real>, d: DimensionResult): real {
    if ExpectedDimension(weights, d) then CoverageTerm(weights, d) else 0.0
  }

  function PartWeight(w: real, v: Option<real>): real {
    if v.Some? && w > 0.0 then w else 0.0
  }

  function PartPoints(w: real, v: Option<real>): real {
    if v.Some? && w > 0.0 then w * v.value else 0.0
  }

  lemma BothScored(w: real, a: real, b: real)
    requires w > 0.0 && a <= b
    ensures Joins(w, w * a, w, w * b)
  {
    MulGrows(w, a, b);
  }

  lemma NewlyScored(w: real, b: real)
    requires w > 0.0 && b == 100.0
    ensures Joins(0.0, 0.0, w, w * b)
  {
  }

  lemma ScoreJoins(w: real, x: Option<real>, y: Option<real>)
    requires Rises(x, y) && Scaled(x) && Scaled(y)
    ensures Joins(PartWeight(w, x), PartPoints(w, x), PartWeight(w, y), PartPoints(w, y))
    ensures Fair(PartWeight(w, x), PartPoints(w, x)) && Fair(PartWeight(w, y), PartPoints(w, y))
  {
    if w > 0.0 && y.Some? {
      FairProduct(w, y.value);
      if x.Some? {
        FairProduct(w, x.value);
        BothScored(w, x.value, y.value);
      } else {
        NewlyScored(w, y.value);
      }
    }
  }

  lemma ScoredParts(d: DimensionResult, weights: map<string, real>)
    ensures ScoredWeight(weights, d) == PartWeight(WeightOf(weights, d), d.score)
    ensures ScoredPoints(weights, d) == PartPoints(WeightOf(weights, d), d.score)
  {
    hide WeightOf;
  }

  lemma DimensionJoins(x: DimensionResult, y: DimensionResult, weights: map<string, real>)
    requires x.dimension == y.dimension && Rises(x.score, y.score) && Scaled(x.score) && Scaled(y.score)
    ensures Joins(ScoredWeight(weights, x), ScoredPoints(weights, x), ScoredWeight(weights, y),
                  ScoredPoints(weights, y))
    ensures Fair(ScoredWeight(weights, x), ScoredPoints(weights, x))
            && Fair(ScoredWeight(weights, y), ScoredPoints(weights, y))
  {
    hide *;
    SameWeight(x, y, weights);
    ScoreJoins(WeightOf(weights, x), x.score, y.score);
    ScoredParts(x, weights);
    ScoredParts(y, weights);
  }

  lemma DimensionCovers(x: DimensionResult, y: DimensionResult, weights: map<string, real>)
    requires x.dimension == y.dimension && CoverageRises(x.coverage, y.coverage)
    ensures CoveredWeight(weights, x) == CoveredWeight(weights, y) && CoveredPart(weights, x) <= CoveredPart(weights, y)
  {
    hide Value;
    SameWeight(x, y, weights);
    CoverageGrows(WeightOf(weights, x), x.coverage, y.coverage);
    hide WeightOf;
  }

  lemma SameWeight(x: DimensionResult, y: DimensionResult, weights: map<string, real>)
    requires x.dimension == y.dimension
    ensures WeightOf(weights, x) == WeightOf(weights, y)
  {
  }

  lemma CoverageGrows(w: real, x: Option<real>, y: Option<real>)
    requires CoverageRises(x, y)
    ensures x.Some? && w > 0.0 ==> w * Value(x) <= w * Value(y)
  {
    if x.Some? && w > 0.0 { MulGrows(w, x.value, y.value); }
  }

  /** The sums behind the dataset's score and coverage, over all dimensions. */
  lemma DatasetSums(ds: seq<DimensionResult>, weights: map<string, real>)
    ensures DatasetScore(ds, weights) == Average(Total(ds, d => ScoredPoints(weights, d)),
                                                 Total(ds, d => ScoredWeight(weights, d)))
    ensures DatasetCoverage(ds, weights) == Average(Total(ds, d => CoveredPart(weights, d)),
                                                    Total(ds, d => CoveredWeight(weights, d)))
  {
    hide Total, Select, WeightOf, ScoreTerm, CoverageTerm, MeasuredDimension, ExpectedDimension;
    TotalSelected(ds, d => MeasuredDimension(weights, d), d => WeightOf(weights, d), d => ScoredWeight(weights, d));
    TotalSelected(ds, d => MeasuredDimension(weights, d), d => ScoreTerm(weights, d), d => ScoredPoints(weights, d));
    TotalSelected(ds, d => ExpectedDimension(weights, d), d => WeightOf(weights, d), d => CoveredWeight(weights, d));
    TotalSelected(ds, d => ExpectedDimension(weights, d), d => CoverageTerm(weights, d), d => CoveredPart(weights, d));
  }

  lemma DatasetRises(a: seq<DimensionResult>, b: seq<DimensionResult>, weights: map<string, real>)
    requires DimensionsRise(a, b)
    ensures Rises(DatasetScore(a, weights), DatasetScore(b, weights))
    ensures CoverageRises(DatasetCoverage(a, weights), DatasetCoverage(b, weights))
  {
    hide DimensionsRise, DatasetScore, DatasetCoverage, Total, ScoredWeight, ScoredPoints, CoveredWeight, CoveredPart,
         Fair, Joins, Rises, Scaled;
    DatasetSums(a, weights);
    DatasetSums(b, weights);
    DatasetTotals(a, b, weights);
    AverageRises(Total(a, d => ScoredWeight(weights, d)), Total(a, d => ScoredPoints(weights, d)),
                 Total(b, d => ScoredWeight(weights, d)), Total(b, d => ScoredPoints(weights, d)));
    var e := Total(a, d => CoveredWeight(weights, d));
    if e > 0.0 { QuotientsOrdered(Total(a, d => CoveredPart(weights, d)), Total(b, d => CoveredPart(weights, d)), e); }
  }

  lemma DatasetTotals(a: seq<DimensionResult>, b: seq<DimensionResult>, weights: map<string, real>)
    requires DimensionsRise(a, b)
    ensures var w, s := (d: DimensionResult) => ScoredWeight(weights, d),
            (d: DimensionResult) => ScoredPoints(weights, d);
            && Joins(Total(a, w), Total(a, s), Total(b, w), Total(b, s))
            && Fair(Total(a, w), Total(a, s)) && Fair(Total(b, w), Total(b, s))
    ensures Total(a, (d: DimensionResult) => CoveredWeight(weights, d)) ==
              Total(b, (d: DimensionResult) => CoveredWeight(weights, d))
    ensures Total(a, (d: DimensionResult) => CoveredPart(weights, d)) <=
              Total(b, (d: DimensionResult) => CoveredPart(weights, d))
  {
    hide Total, ScoredWeight, ScoredPoints, CoveredWeight, CoveredPart, Joins, Fair, Rises, CoverageRises, Scaled;
    forall i | 0 <= i < |a|
      ensures Joins(ScoredWeight(weights, a[i]), ScoredPoints(weights, a[i]), ScoredWeight(weights, b[i]),
                    ScoredPoints(weights, b[i]))
      ensures Fair(ScoredWeight(weights, a[i]), ScoredPoints(weights, a[i]))
              && Fair(ScoredWeight(weights, b[i]), ScoredPoints(weights, b[i]))
      ensures CoveredWeight(weights, a[i]) == CoveredWeight(weights, b[i])
              && CoveredPart(weights, a[i]) <= CoveredPart(weights, b[i])
    {
      DimensionJoins(a[i], b[i], weights);
      DimensionCovers(a[i], b[i], weights);
    }
    hide DimensionsRise;
    TotalsJoin(a, b, (d: DimensionResult) => ScoredWeight(weights, d),
               (d: DimensionResult) => ScoredPoints(weights, d));
    TotalsFair(a, (d: DimensionResult) => ScoredWeight(weights, d), (d: DimensionResult) => ScoredPoints(weights, d));
    TotalsFair(b, (d: DimensionResult) => ScoredWeight(weights, d), (d: DimensionResult) => ScoredPoints(weights, d));
    TotalPairwise(a, b, (d: DimensionResult) => CoveredWeight(weights, d));
    TotalPairwise(a, b, (d: DimensionResult) => CoveredPart(weights, d));
  }

  // ---- gate and scorecard ----------------------------------------------------------------------

  /** Acceptance thresholds within the scale. */
  ghost predicate Reachable(r: RuleResult, p: Policy) {
    (r.acceptance.Some? ==> r.acceptance.value <= 100.0)
      && (p.criticalAcceptance.Some? ==> p.criticalAcceptance.value <= 100.0)
  }

  lemma MarkedState(x: RuleResult, y: RuleResult, p: Policy)
    requires Marked(x, y) && Reachable(x, p)
    ensures y.dimension == x.dimension && (ExpectedRule(x) <==> ExpectedRule(y))
            && (GateMeasured(x) ==> GateMeasured(y))
    ensures CriticalViolated(y, p) ==> CriticalViolated(x, p)
    ensures y.required && y.status.FailedToMeasure? <==> x.required && x.status.FailedToMeasure?
    ensures y.required && (y.status.NotMeasurable? || y.status.InsufficientData? || y.status.SkippedByBudget?) ==>
              x.required && (x.status.NotMeasurable? || x.status.InsufficientData? || x.status.SkippedByBudget?)
  {
  }

  lemma MarkedStates(a: seq<RuleResult>, b: seq<RuleResult>, p: Policy, required: set<string>)
    requires AllMarked(a, b) && forall r <- a :: Reachable(r, p)
    ensures Dimensions(a, required) == Dimensions(b, required) && RequiredDimensions(a) == RequiredDimensions(b)
    ensures MeasuredDimensions(a) <= MeasuredDimensions(b)
    ensures RequiredFailure(a) == RequiredFailure(b) && (UnmeasuredRequired(b) ==> UnmeasuredRequired(a))
    ensures (exists r <- b :: CriticalViolated(r, p)) ==> exists r <- a :: CriticalViolated(r, p)
  {
    hide Marked, Reachable, CriticalViolated, GateMeasured, ExpectedRule;
    forall i | 0 <= i < |a|
      ensures a[i] in a && b[i] in b && b[i].dimension == a[i].dimension && (ExpectedRule(a[i]) <==> ExpectedRule(b[i]))
      ensures GateMeasured(a[i]) ==> GateMeasured(b[i])
      ensures CriticalViolated(b[i], p) ==> CriticalViolated(a[i], p)
      ensures b[i].required && b[i].status.FailedToMeasure? <==> a[i].required && a[i].status.FailedToMeasure?
      ensures b[i].required && (b[i].status.NotMeasurable? || b[i].status.InsufficientData?
                                || b[i].status.SkippedByBudget?) ==>
                a[i].required && (a[i].status.NotMeasurable? || a[i].status.InsufficientData?
                                  || a[i].status.SkippedByBudget?)
    {
      MarkedState(a[i], b[i], p);
    }
  }

  lemma TierRises(a: seq<RuleResult>, b: seq<RuleResult>, s: Option<real>, t: Option<real>, c: Option<real>,
                  d: Option<real>, p: Policy, required: set<string>)
    requires AllMarked(a, b) && (forall r <- a :: Reachable(r, p)) && Rises(s, t) && CoverageRises(c, d)
    ensures Rank(EvaluateTier(a, s, c, p, required)) <= Rank(EvaluateTier(b, t, d, p, required))
  {
    MarkedStates(a, b, p, required);
    hide AllMarked, Reachable, CriticalViolated, MeasuredDimensions, RequiredFailure, UnmeasuredRequired, Dimensions,
         RequiredDimensions;
  }

  /** One rule of a scorecard gets its full mark: coverage, scores and gate do not get worse. */
  lemma MarkImprovesScorecard(a: seq<RuleResult>, b: seq<RuleResult>, p: Policy, succeeded: bool)
    requires AllMarked(a, b) && OnScale(a) && OnScale(b) && forall r <- a :: Reachable(r, p)
    ensures var required := RequiredDimensions(a);
            var s, t := Aggregate(a, p, required, succeeded), Aggregate(b, p, RequiredDimensions(b), succeeded);
            && CoverageRises(s.coverage, t.coverage) && Rises(s.score, t.score)
               && DimensionsRise(s.dimensions, t.dimensions)
            && Rank(EvaluateTier(a, s.score, s.coverage, p, required)) <=
                 Rank(EvaluateTier(b, t.score, t.coverage, p, required))
  {
    var required := RequiredDimensions(a);
    MarkedStates(a, b, p, required);
    var names := SortedNames(Dimensions(a, required));
    hide AllMarked, OnScale, Reachable, DimensionsRise, Rises, CoverageRises, EvaluateTier, Dimensions,
         RequiredDimensions, DimensionResults,
      DatasetScore, DatasetCoverage, SortedNames, MeasuredDimensions, RequiredFailure, UnmeasuredRequired,
        CriticalViolated;
    var ds, es := DimensionResults(a, names, p.dimensionWeights), DimensionResults(b, names, p.dimensionWeights);
    DimensionResultsRise(a, b, names, p.dimensionWeights);
    DatasetRises(ds, es, p.dimensionWeights);
    TierRises(a, b, DatasetScore(ds, p.dimensionWeights), DatasetScore(es, p.dimensionWeights),
              DatasetCoverage(ds, p.dimensionWeights), DatasetCoverage(es, p.dimensionWeights), p, required);
  }

  /**
   End to end, the case without counting records: the first one, of one rule, never lowers the coverage, a dimension
   score or the dataset score and never moves the gate to an earlier tier. Scores and thresholds are within the scale.
   */
  lemma FirstRecordImprovesScorecard(rules: seq<RuleResult>, i: nat, rule: Rule, a: Counts, b: Counts, p: Policy,
                                     succeeded: bool)
    requires a.passed >= 0 && a.failed >= 0 && a.missing >= 0 && a.miscast >= 0 && RecordImproves(a, b)
    requires Denominator(a, rule.nullPolicy) == Some(0)
    requires i < |rules| && ProcessRuleResult(rule, Output(rule.id, a, Measured)) == Some(rules[i])
    requires OnScale(rules) && forall r <- rules :: Reachable(r, p)
    ensures ProcessRuleResult(rule, Output(rule.id, b, Measured)).Some?
    ensures var after := rules[i := ProcessRuleResult(rule, Output(rule.id, b, Measured)).value];
            var required := RequiredDimensions(rules);
            var s, t := Aggregate(rules, p, required, succeeded),
                Aggregate(after, p, RequiredDimensions(after), succeeded);
            && CoverageRises(s.coverage, t.coverage) && Rises(s.score, t.score)
               && DimensionsRise(s.dimensions, t.dimensions)
            && Rank(EvaluateTier(rules, s.score, s.coverage, p, required)) <=
                 Rank(EvaluateTier(after, t.score, t.coverage, p, required))
  {
    FirstRecordMeasures(rule, a, b);
    hide ProcessRuleResult, Aggregate, EvaluateTier, RequiredDimensions, DimensionsRise, Reachable, Rises,
         CoverageRises, PartitionHolds;
    var after := rules[i := ProcessRuleResult(rule, Output(rule.id, b, Measured)).value];
    assert Marked(rules[i], after[i]);
    assert AllMarked(rules, after);
    assert OnScale(after);
    hide AllMarked, OnScale;
    MarkImprovesScorecard(rules, after, p, succeeded);
  }
}
