/** Publication, advisories and replay: what the scorecard does and does not depend on. */
module ScoringLaws {
  import opened Wrappers
  import opened Ordering
  import opened ScoringModels
  import opened Totals
  import opened DimensionScoring
  import opened DatasetScoring
  import opened QualityGate
  import opened PublicationCheck
  import opened ScoreAggregator
  import opened ScoringBounds
  import opened ScoringMonotone

  // ---- publication -----------------------------------------------------------------------------

  function ScoredDimensions(rules: seq<RuleResult>): set<string> {
    set r <- rules | MeasuredRule(r) :: r.dimension
  }

  /** How the parts of a scorecard hang together. */
  lemma ScorecardParts(rules: seq<RuleResult>, p: Policy, required: set<string>, succeeded: bool)
    ensures var s := Aggregate(rules, p, required, succeeded);
            && s.gate == GateOf(EvaluateTier(rules, s.score, s.coverage, p, required))
            && s.hasFailedRequired == RequiredFailure(rules) && s.hasUnmeasuredRequired == UnmeasuredRequired(rules)
            && (s.publication, s.publishedScore) ==
                 DeterminePublication(succeeded, s.gate, s.score, s.coverage, p, s.allRequiredMeasured,
                                      RequiredFailure(rules), UnmeasuredRequired(rules))
  {
    hide DatasetScore, DatasetCoverage, DimensionResults, SortedNames, EvaluateTier, DeterminePublication,
         RequiredFailure, UnmeasuredRequired, GateOf;
  }

  lemma AllRequiredMeasured(rules: seq<RuleResult>, p: Policy, required: set<string>, succeeded: bool)
    ensures Aggregate(rules, p, required, succeeded).allRequiredMeasured <==> required <= ScoredDimensions(rules)
  {
    var names := SortedNames(Dimensions(rules, required));
    var ds := DimensionResults(rules, names, p.dimensionWeights);
    EachDimension(rules, names, p.dimensionWeights);
    hide DimensionScore, DimensionCoverage, DatasetScore, DatasetCoverage, DimensionResults, SortedNames, MeasuredRule,
         EvaluateTier;
    forall d | d in ds
      ensures d.score.Some? <==> d.dimension in ScoredDimensions(rules)
    {
      DimensionCoverageBounds(d.rules);
      assert forall r :: r in d.rules <==> r in rules && r.dimension == d.dimension;
    }
    forall n | n in required
      ensures exists d <- ds :: d.dimension == n
    {
      DimensionNamed(rules, required, p, n);
    }
    assert forall n <- required :: n in NamesScored(ds) <==> n in ScoredDimensions(rules);
  }

  /**
   The orchestrator's scorecard is published exactly when no required rule failed technically, the evidence is
   sufficient, and every required dimension has a measured rule of positive weight; then the score published is the
   dataset score.
   */
  lemma PublishedExactly(rules: seq<RuleResult>, p: Policy)
    ensures var required := RequiredDimensions(rules);
            var s := Aggregate(rules, p, required, true);
            && (s.publication.Published? <==>
                  && !RequiredFailure(rules) && !EvidenceInsufficient(rules, s.score, s.coverage, p, required)
                  && required <= ScoredDimensions(rules))
            && s.publishedScore == (if s.publication.Published? then s.score else None)
  {
    var required := RequiredDimensions(rules);
    AllRequiredMeasured(rules, p, required, true);
    ScorecardParts(rules, p, required, true);
    assert ScoredDimensions(rules) <= MeasuredDimensions(rules);
    var s := Aggregate(rules, p, required, true);
    hide Aggregate, RequiredDimensions, ScoredDimensions, MeasuredDimensions;
    PublishedWhen(rules, s.score, s.coverage, p, required, s.allRequiredMeasured);
  }

  lemma PublishedWhen(rules: seq<RuleResult>, score: Option<real>, coverage: Option<real>, p: Policy,
                      required: set<string>, all: bool)
    requires all ==> required <= MeasuredDimensions(rules)
    ensures var (publication, published) :=
              DeterminePublication(true, GateOf(EvaluateTier(rules, score, coverage, p, required)), score, coverage, p,
                                   all, RequiredFailure(rules), UnmeasuredRequired(rules));
            && (publication.Published? <==>
                  !RequiredFailure(rules) && !EvidenceInsufficient(rules, score, coverage, p, required) && all)
            && published == (if publication.Published? then score else None)
  {
    hide MeasuredDimensions, CriticalViolated, RequiredFailure, UnmeasuredRequired;
  }

  lemma SufficientWhenScored(rules: seq<RuleResult>, p: Policy, required: set<string>)
    ensures var s := Aggregate(rules, p, required, true);
            s.gate.GateWarn? || s.gate.GatePass? ==>
              !RequiredFailure(rules) && !EvidenceInsufficient(rules, s.score, s.coverage, p, required)
  {
    ScorecardParts(rules, p, required, true);
    hide Aggregate, EvidenceInsufficient, RequiredFailure, CriticalViolated;
  }

  /** A WARN or PASS is published exactly when every required dimension has a measured rule of positive weight. */
  lemma PassPublishedExactly(rules: seq<RuleResult>, p: Policy)
    ensures var required := RequiredDimensions(rules);
            var s := Aggregate(rules, p, required, true);
            s.gate.GateWarn? || s.gate.GatePass? ==>
              (s.publication.Published? <==>
                 forall n <- required :: exists r <- rules :: r.dimension == n && MeasuredRule(r))
  {
    var required := RequiredDimensions(rules);
    PublishedExactly(rules, p);
    SufficientWhenScored(rules, p, required);
    assert required <= ScoredDimensions(rules) <==>
           forall n <- required :: exists r <- rules :: r.dimension == n && MeasuredRule(r);
    hide Aggregate, RequiredDimensions, RequiredFailure, EvidenceInsufficient;
  }

  /**
   With positive contribution weights the third condition is part of the second, so every WARN and PASS is published.
   */
  lemma PositiveWeightsPublish(rules: seq<RuleResult>, p: Policy)
    requires forall r <- rules :: GateMeasured(r) ==> r.weight > 0.0
    ensures var required := RequiredDimensions(rules);
            var s := Aggregate(rules, p, required, true);
            && (s.publication.Published? <==>
                  !RequiredFailure(rules) && !EvidenceInsufficient(rules, s.score, s.coverage, p, required))
            && (s.gate.GateWarn? || s.gate.GatePass? ==> s.publication.Published?)
  {
    assert MeasuredDimensions(rules) == ScoredDimensions(rules);
    PublishedExactly(rules, p);
    var required := RequiredDimensions(rules);
    SufficientWhenScored(rules, p, required);
    hide Aggregate;
    hide DatasetScore, DatasetCoverage, DimensionResults, SortedNames, MeasuredDimensions, RequiredDimensions,
         ScoredDimensions, UnmeasuredRequired, RequiredFailure, CriticalViolated, DeterminePublication;
  }

  function Plain(id: string, dimension: string, weight: real, score: Option<real>): RuleResult {
    RuleResult(id, dimension, if score.Some? then Measured
               else NotMeasurable, false, false, false, true, true, true, weight, None, None, score, 0)
  }

  const ZERO_WEIGHT_RULES := [Plain("a", "A", 1.0, None), Plain("b", "A", 0.0, Some(100.0)),
                              Plain("c", "B", 1.0, Some(100.0))]
  const ZERO_WEIGHT_POLICY := Policy(0.8, 60.0, 80.0, 0.8, None, map["A" := 0.0])

  lemma ZeroWeightSets()
    ensures var rules := ZERO_WEIGHT_RULES;
            && "A" in RequiredDimensions(rules) && RequiredDimensions(rules) <= MeasuredDimensions(rules)
            && "A" !in ScoredDimensions(rules)
            && !RequiredFailure(rules) && !UnmeasuredRequired(rules)
            && !(exists r <- rules :: CriticalViolated(r, ZERO_WEIGHT_POLICY))
  {
    var rules := ZERO_WEIGHT_RULES;
    assert rules[0] in rules && rules[1] in rules && rules[2] in rules;
    assert ExpectedRule(rules[0]) && GateMeasured(rules[1]) && GateMeasured(rules[2]);
  }

  lemma ZeroWeightRulesRead()
    ensures var rules, p := ZERO_WEIGHT_RULES, ZERO_WEIGHT_POLICY;
            && |rules| == 3 && rules[2] in rules && ExpectedRule(rules[2]) && MeasuredRule(rules[2])
               && PolicyWeight(p, rules[2].dimension) > 0.0
            && (forall r <- rules :: ExpectedRule(r) && PolicyWeight(p, r.dimension) > 0.0 ==> MeasuredRule(r))
            && (forall r <- rules :: MeasuredRule(r) ==> r.score == Some(100.0))
  {
  }

  lemma ZeroWeightScores()
    ensures var s := Aggregate(ZERO_WEIGHT_RULES, ZERO_WEIGHT_POLICY, RequiredDimensions(ZERO_WEIGHT_RULES), true);
            s.coverage == Some(1.0) && s.score == Some(100.0)
  {
    hide Aggregate, RequiredDimensions, MeasuredRule, ExpectedRule, PolicyWeight, ZERO_WEIGHT_RULES, ZERO_WEIGHT_POLICY;
    ZeroWeightRulesRead();
    var rules, p := ZERO_WEIGHT_RULES, ZERO_WEIGHT_POLICY;
    var required := RequiredDimensions(rules);
    FullCoverage(rules, p, required, true);
    ScorecardBounds(rules, p, required, true, 100.0, 100.0);
    OneScored(rules, p, required, rules[2]);
  }

  /** The gate does not ask for positive weights, so with a weight of zero a PASS may be withheld. */
  lemma PassWithheld()
    ensures var s := Aggregate(ZERO_WEIGHT_RULES, ZERO_WEIGHT_POLICY, RequiredDimensions(ZERO_WEIGHT_RULES), true);
            Acceptable(ZERO_WEIGHT_POLICY) && s.gate.GatePass? && s.publication.Withheld?
  {
    ZeroWeightScores();
    ZeroWeightSets();
    var rules, p := ZERO_WEIGHT_RULES, ZERO_WEIGHT_POLICY;
    var required := RequiredDimensions(rules);
    AllRequiredMeasured(rules, p, required, true);
    hide ZERO_WEIGHT_RULES;
    WithheldPass(rules, p, required);
  }

  lemma WithheldPass(rules: seq<RuleResult>, p: Policy, required: set<string>)
    requires p == ZERO_WEIGHT_POLICY && required <= MeasuredDimensions(rules)
    requires !RequiredFailure(rules) && !UnmeasuredRequired(rules) && !(exists r <- rules :: CriticalViolated(r, p))
    requires var s := Aggregate(rules, p, required, true);
             s.coverage == Some(1.0) && s.score == Some(100.0) && !s.allRequiredMeasured
    ensures Aggregate(rules, p, required, true).gate.GatePass?
            && Aggregate(rules, p, required, true).publication.Withheld?
  {
    ScorecardParts(rules, p, required, true);
    hide Aggregate, MeasuredDimensions, CriticalViolated, RequiredFailure, UnmeasuredRequired;
  }

  /** A measured rule in a dimension the policy weighs makes a dataset score. */
  lemma OneScored(rules: seq<RuleResult>, p: Policy, required: set<string>, r: RuleResult)
    requires r in rules && MeasuredRule(r) && PolicyWeight(p, r.dimension) > 0.0
    ensures Aggregate(rules, p, required, true).score.Some?
  {
    var names := SortedNames(Dimensions(rules, required));
    var ds := DimensionResults(rules, names, p.dimensionWeights);
    EachDimension(rules, names, p.dimensionWeights);
    DimensionNamed(rules, required, p, r.dimension);
    hide DimensionScore, DimensionCoverage, DatasetScore, DatasetCoverage, SortedNames, DimensionResults, EvaluateTier;
    var d :| d in ds && d.dimension == r.dimension && d.rules == RulesOf(rules, r.dimension);
    assert r in d.rules;
    DimensionCoverageBounds(d.rules);
    MeasuredInBounds(ds, p.dimensionWeights, d);
  }

  lemma MeasuredInBounds(ds: seq<DimensionResult>, weights: map<string, real>, d: DimensionResult)
    requires d in ds && MeasuredDimension(weights, d)
    ensures DatasetScore(ds, weights).Some?
  {
    var chosen := Select(ds, e => MeasuredDimension(weights, e));
    SelectsSome(ds, e => MeasuredDimension(weights, e));
    TotalPositive(chosen, e => WeightOf(weights, e));
  }

  // ---- order of the results --------------------------------------------------------------------

  /** Two scorecards that agree on everything but the order of the rules inside a dimension. */
  ghost predicate SameDimensionResults(a: seq<DimensionResult>, b: seq<DimensionResult>) {
    && |a| == |b|
    && forall i :: 0 <= i < |a| ==> a[i].(rules := b[i].rules) == b[i] && multiset(a[i].rules) == multiset(b[i].rules)
  }

  lemma SameBothWays(a: seq<DimensionResult>, b: seq<DimensionResult>)
    requires SameDimensionResults(a, b)
    ensures DimensionsBetter(a, b) && DimensionsBetter(b, a)
  {
  }

  lemma SameTotals(a: seq<DimensionResult>, b: seq<DimensionResult>, weights: map<string, real>)
    requires DimensionsBetter(a, b) && DimensionsBetter(b, a)
    ensures DatasetScore(a, weights) == DatasetScore(b, weights)
            && DatasetCoverage(a, weights) == DatasetCoverage(b, weights)
  {
    hide DimensionsBetter, DatasetScore, DatasetCoverage;
    DatasetBetter(a, b, weights);
    DatasetBetter(b, a, weights);
  }

  lemma GroupPermutes(a: seq<RuleResult>, b: seq<RuleResult>)
    requires multiset(a) == multiset(b)
    ensures DimensionScore(a) == DimensionScore(b) && DimensionCoverage(a) == DimensionCoverage(b)
  {
    SelectPermutes(a, b, MeasuredRule);
    SelectPermutes(a, b, ExpectedRule);
    TotalPermutes(Select(a, MeasuredRule), Select(b, MeasuredRule), Weight);
    TotalPermutes(Select(a, MeasuredRule), Select(b, MeasuredRule), WeightedScore);
    TotalPermutes(Select(a, ExpectedRule), Select(b, ExpectedRule), Weight);
  }

  lemma DimensionResultsPermute(a: seq<RuleResult>, b: seq<RuleResult>, names: seq<string>, weights: map<string, real>)
    requires multiset(a) == multiset(b)
    ensures SameDimensionResults(DimensionResults(a, names, weights), DimensionResults(b, names, weights))
  {
    hide DimensionScore, DimensionCoverage, RecordedWeight;
    forall i | 0 <= i < |names|
      ensures var x, y := RulesOf(a, names[i]), RulesOf(b, names[i]);
              multiset(x) == multiset(y) && DimensionScore(x) == DimensionScore(y)
                && DimensionCoverage(x) == DimensionCoverage(y)
    {
      SelectPermutes(a, b, (r: RuleResult) => r.dimension == names[i]);
      GroupPermutes(RulesOf(a, names[i]), RulesOf(b, names[i]));
    }
  }

  lemma SameElements<T>(a: seq<T>, b: seq<T>)
    requires multiset(a) == multiset(b)
    ensures forall x :: x in a <==> x in b
  {
    assert forall x :: x in a <==> x in multiset(a);
    assert forall x :: x in b <==> x in multiset(b);
  }

  lemma TierPermutes(a: seq<RuleResult>, b: seq<RuleResult>, score: Option<real>, coverage: Option<real>, p: Policy,
                     required: set<string>)
    requires multiset(a) == multiset(b)
    ensures EvaluateTier(a, score, coverage, p, required) == EvaluateTier(b, score, coverage, p, required)
    ensures RequiredFailure(a) == RequiredFailure(b) && UnmeasuredRequired(a) == UnmeasuredRequired(b)
    ensures Dimensions(a, required) == Dimensions(b, required) && RequiredDimensions(a) == RequiredDimensions(b)
    ensures ScoredDimensions(a) == ScoredDimensions(b)
  {
    SameElements(a, b);
    hide CriticalViolated, MeasuredRule, ExpectedRule, GateMeasured;
    assert MeasuredDimensions(a) == MeasuredDimensions(b);
  }

  /** Every permutation of the rule results yields the same scorecard. */
  lemma OrderDoesNotMatter(a: seq<RuleResult>, b: seq<RuleResult>, p: Policy, required: set<string>, succeeded: bool)
    requires multiset(a) == multiset(b)
    ensures var s, t := Aggregate(a, p, required, succeeded), Aggregate(b, p, required, succeeded);
            s.(dimensions := t.dimensions) == t && SameDimensionResults(s.dimensions, t.dimensions)
  {
    TierPermutes(a, b, None, None, p, required);
    var names := SortedNames(Dimensions(a, required));
    var ds, es := DimensionResults(a, names, p.dimensionWeights), DimensionResults(b, names, p.dimensionWeights);
    hide DatasetScore, DatasetCoverage, DimensionResults, EvaluateTier, SortedNames, Dimensions, SameDimensionResults,
         DimensionsBetter, RequiredFailure, UnmeasuredRequired, DeterminePublication, ScoredDimensions;
    DimensionResultsPermute(a, b, names, p.dimensionWeights);
    SameBothWays(ds, es);
    SameTotals(ds, es, p.dimensionWeights);
    TierPermutes(a, b, DatasetScore(ds, p.dimensionWeights), DatasetCoverage(ds, p.dimensionWeights), p, required);
    AllRequiredMeasured(a, p, required, succeeded);
    AllRequiredMeasured(b, p, required, succeeded);
  }

  datatype DimensionEntry = DimensionEntry(dimension: string, score: Option<real>, coverage: Option<real>, rules: nat)
  datatype RuleEntry = RuleEntry(id: string, dimension: string, status: Measurement, score: Option<real>,
                                 violations: int)
  /** What the assessment hash covers. */
  datatype Payload = Payload(snapshot: string, score: Option<real>, publication: Publication, coverage: Option<real>,
                             gate: Gate, dimensions: seq<DimensionEntry>, rules: seq<RuleEntry>)

  function DimensionEntries(ds: seq<DimensionResult>): seq<DimensionEntry> {
    seq(|ds|, i requires 0 <= i < |ds| => DimensionEntry(ds[i].dimension, ds[i].score, ds[i].coverage, |ds[i].rules|))
  }

  function RuleEntries(rules: seq<RuleResult>): seq<RuleEntry> {
    seq(|rules|, i requires 0 <= i < |rules| =>
      RuleEntry(rules[i].id, rules[i].dimension, rules[i].status, rules[i].score, rules[i].violations))
  }

  predicate ByDimension(a: DimensionEntry, b: DimensionEntry) { Below(a.dimension, b.dimension) }

  predicate ById(a: RuleResult, b: RuleResult) { Below(a.id, b.id) }

  function HashPayload(snapshot: string, s: Summary, rules: seq<RuleResult>): Payload {
    Payload(snapshot, s.publishedScore, s.publication, s.coverage, s.gate,
            Sort(DimensionEntries(s.dimensions), ByDimension), RuleEntries(Sort(rules, ById)))
  }

  lemma IdsOrder(rules: seq<RuleResult>)
    requires forall i, j :: 0 <= i < j < |rules| ==> rules[i].id != rules[j].id
    ensures Orders(ById) && Separates(multiset(rules), ById)
  {
    forall x: RuleResult, y: RuleResult
      ensures ById(x, y) || ById(y, x)
    {
      BelowTotal(x.id, y.id);
    }
    forall x: RuleResult, y: RuleResult, z: RuleResult | ById(x, y) && ById(y, z)
      ensures ById(x, z)
    {
      BelowTransitive(x.id, y.id, z.id);
    }
    forall x, y | x in multiset(rules) && y in multiset(rules) && ById(x, y) && ById(y, x)
      ensures x == y
    {
      BelowAntisymmetric(x.id, y.id);
      assert x in rules && y in rules;
    }
  }

  /** With distinct rule ids, every permutation of the rule results hashes the same payload. */
  lemma ReplayHashesTheSame(a: seq<RuleResult>, b: seq<RuleResult>, p: Policy, succeeded: bool, snapshot: string)
    requires multiset(a) == multiset(b) && forall i, j :: 0 <= i < j < |a| ==> a[i].id != a[j].id
    ensures HashPayload(snapshot, Aggregate(a, p, RequiredDimensions(a), succeeded), a)
         == HashPayload(snapshot, Aggregate(b, p, RequiredDimensions(b), succeeded), b)
  {
    TierPermutes(a, b, None, None, p, {});
    IdsOrder(a);
    hide Aggregate, RequiredDimensions, Orders, Separates, EvaluateTier, Dimensions;
    OrderDoesNotMatter(a, b, p, RequiredDimensions(a), succeeded);
    SortCanonical(a, b, ById);
    EntriesAgree(Aggregate(a, p, RequiredDimensions(a), succeeded).dimensions,
                 Aggregate(b, p, RequiredDimensions(b), succeeded).dimensions);
  }

  lemma EntriesAgree(a: seq<DimensionResult>, b: seq<DimensionResult>)
    requires SameDimensionResults(a, b)
    ensures DimensionEntries(a) == DimensionEntries(b)
  {
    forall i | 0 <= i < |a|
      ensures DimensionEntries(a)[i] == DimensionEntries(b)[i]
    {
      assert |a[i].rules| == |multiset(a[i].rules)| == |b[i].rules|;
    }
  }

  // ---- grouping --------------------------------------------------------------------------------

  function Flatten(groups: seq<DimensionResult>): seq<RuleResult> {
    if |groups| == 0 then [] else groups[0].rules + Flatten(groups[1..])
  }

  lemma {:induction false} FlattenCounts(rules: seq<RuleResult>, names: seq<string>, weights: map<string, real>,
                                         x: RuleResult)
    requires forall i, j :: 0 <= i < j < |names| ==> names[i] != names[j]
    ensures multiset(Flatten(DimensionResults(rules, names, weights)))[x] == if x.dimension in names then
              multiset(rules)[x] else 0
    decreases |names|
  {
    hide ComputeDimensionResult, RecordedWeight;
    if |names| > 0 {
      var ds := DimensionResults(rules, names, weights);
      assert ds[1..] == DimensionResults(rules, names[1..], weights);
      FlattenCounts(rules, names[1..], weights, x);
      SelectCounts(rules, (r: RuleResult) => r.dimension == names[0], x);
      assert names == [names[0]] + names[1..];
      GroupRules(rules, names, weights, 0);
      assert Flatten(ds) == RulesOf(rules, names[0]) + Flatten(ds[1..]);
    }
  }

  lemma GroupRules(rules: seq<RuleResult>, names: seq<string>, weights: map<string, real>, i: nat)
    requires i < |names|
    ensures DimensionResults(rules, names, weights)[i].rules == RulesOf(rules, names[i])
  {
  }

  lemma {:induction false} NamesDistinct(s: set<string>)
    ensures forall i, j :: 0 <= i < j < |SortedNames(s)| ==> SortedNames(s)[i] != SortedNames(s)[j]
  {
    if s != {} {
      NamesDistinct(s - {Least(s)});
    }
  }

  /** Grouping by dimension neither loses nor duplicates a rule. */
  lemma GroupingConserves(rules: seq<RuleResult>, p: Policy, required: set<string>, succeeded: bool)
    ensures multiset(Flatten(Aggregate(rules, p, required, succeeded).dimensions)) == multiset(rules)
  {
    var names := SortedNames(Dimensions(rules, required));
    NamesDistinct(Dimensions(rules, required));
    hide DimensionResults, SortedNames, DatasetScore, DatasetCoverage, EvaluateTier, Flatten;
    forall x: RuleResult
      ensures multiset(Flatten(DimensionResults(rules, names, p.dimensionWeights)))[x] == multiset(rules)[x]
    {
      FlattenCounts(rules, names, p.dimensionWeights, x);
      if x in rules { assert x.dimension in Dimensions(rules, required); }
    }
  }
}
