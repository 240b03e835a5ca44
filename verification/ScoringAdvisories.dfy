/** Outlier advisories inform and decide nothing. */
module ScoringAdvisories {
  import opened Wrappers
  import opened ScoringModels
  import opened Totals
  import opened DimensionScoring
  import opened DatasetScoring
  import opened QualityGate
  import opened OutlierAdvisory
  import opened ScoreAggregator
  import opened ScoringLaws

  /** What sets an advisory result apart: nobody requires it and no score, coverage or gate counts it. */
  ghost predicate Inert(r: RuleResult) {
    r.advisory && !r.required && !r.scoreEnabled && !r.gateEnabled
  }

  /** An inert result leaves the score and coverage of its dimension alone. */
  lemma InertGroup(rules: seq<RuleResult>, x: RuleResult, n: string)
    requires Inert(x)
    ensures var a, b := RulesOf(rules, n), RulesOf(rules + [x], n);
            DimensionScore(a) == DimensionScore(b) && DimensionCoverage(a) == DimensionCoverage(b)
  {
    SelectAppend(rules, x, (r: RuleResult) => r.dimension == n);
    var a := RulesOf(rules, n);
    SelectAppend(a, x, MeasuredRule);
    SelectAppend(a, x, ExpectedRule);
  }

  lemma NamesFrom(s: set<string>, m: string)
    requires IsLeast(s, m)
    ensures SortedNames(s) == [m] + SortedNames(s - {m})
  {
    LeastIs(s, m);
  }

  lemma LeastStays(s: set<string>, x: string, m: string)
    requires IsLeast(s + {x}, m) && m != x
    ensures IsLeast(s, m) && s + {x} - {m} == (s - {m}) + {x}
  {
  }

  /** `b` is `a` with `x` inserted at `k`. */
  ghost predicate Inserted(a: seq<string>, b: seq<string>, k: nat, x: string) {
    k <= |a| && b == a[..k] + [x] + a[k..]
  }

  lemma InsertShifts(m: string, a: seq<string>, b: seq<string>, k: nat, x: string)
    requires Inserted(a, b, k, x)
    ensures Inserted([m] + a, [m] + b, k + 1, x)
  {
  }

  lemma InsertFront(a: seq<string>, x: string)
    ensures Inserted(a, [x] + a, 0, x)
  {
  }

  lemma {:induction false} NamesInsert(s: set<string>, x: string) returns (k: nat)
    requires x !in s
    ensures Inserted(SortedNames(s), SortedNames(s + {x}), k, x)
    decreases |s|
  {
    var m := Least(s + {x});
    LeastOf(s + {x});
    assert m != x ==> m in s;
    hide *;
    NamesFrom(s + {x}, m);
    if m == x {
      k := 0;
      assert s + {x} - {x} == s;
      InsertFront(SortedNames(s), x);
    } else {
      LeastStays(s, x, m);
      NamesFrom(s, m);
      var i := NamesInsert(s - {m}, x);
      k := i + 1;
      InsertShifts(m, SortedNames(s - {m}), SortedNames((s - {m}) + {x}), i, x);
    }
  }

  lemma LeastOf(s: set<string>)
    requires s != {}
    ensures IsLeast(s, Least(s))
  {
  }

  lemma LeastIs(s: set<string>, m: string)
    requires IsLeast(s, m)
    ensures s != {} && Least(s) == m
  {
    LeastOf(s);
    LeastUnique(s);
  }

  /** The dimension an advisory may add has neither a score nor a coverage. */
  lemma {:induction false} SelectSkips<T(!new)>(a: seq<T>, x: T, b: seq<T>, p: T -> bool)
    requires !p(x)
    ensures Select(a + [x] + b, p) == Select(a + b, p)
  {
    if |a| == 0 {
      assert a + [x] + b == [x] + b && a + b == b;
      assert ([x] + b)[1..] == b;
    } else {
      assert (a + [x] + b)[1..] == a[1..] + [x] + b && (a + b)[1..] == a[1..] + b;
      SelectSkips(a[1..], x, b, p);
    }
  }

  lemma SameNamesSameTotals(rules: seq<RuleResult>, x: RuleResult, names: seq<string>, weights: map<string, real>)
    requires Inert(x)
    ensures var ds, es := DimensionResults(rules, names, weights), DimensionResults(rules + [x], names, weights);
            DatasetScore(ds, weights) == DatasetScore(es, weights)
              && DatasetCoverage(ds, weights) == DatasetCoverage(es, weights)
  {
    var ds, es := DimensionResults(rules, names, weights), DimensionResults(rules + [x], names, weights);
    hide DimensionScore, DimensionCoverage, RulesOf, RecordedWeight, Inert, DatasetScore, DatasetCoverage;
    forall i | 0 <= i < |names|
      ensures ds[i].dimension == es[i].dimension && ds[i].coverage == es[i].coverage && ds[i].score == es[i].score
    {
      InertGroup(rules, x, names[i]);
    }
    SameTotals(ds, es, weights);
  }

  lemma ExtraNameSameTotals(rules: seq<RuleResult>, names: seq<string>, k: nat, n: string, weights: map<string, real>)
    requires k <= |names| && DimensionScore(RulesOf(rules, n)).None? && DimensionCoverage(RulesOf(rules, n)).None?
    ensures var ds, es := DimensionResults(rules, names, weights),
            DimensionResults(rules, names[..k] + [n] + names[k..], weights);
            DatasetScore(ds, weights) == DatasetScore(es, weights)
              && DatasetCoverage(ds, weights) == DatasetCoverage(es, weights)
  {
    var more := names[..k] + [n] + names[k..];
    var ds, es := DimensionResults(rules, names, weights), DimensionResults(rules, more, weights);
    var d := ComputeDimensionResult(n, RulesOf(rules, n), RecordedWeight(weights, n));
    hide DimensionScore, DimensionCoverage, RecordedWeight, RulesOf;
    assert es == ds[..k] + [d] + ds[k..];
    assert ds == ds[..k] + ds[k..];
    SelectSkips(ds[..k], d, ds[k..], e => MeasuredDimension(weights, e));
    SelectSkips(ds[..k], d, ds[k..], e => ExpectedDimension(weights, e));
  }

  /** A dimension in which no rule is expected has neither score nor coverage. */
  lemma InertDimension(rules: seq<RuleResult>, x: RuleResult)
    requires Inert(x) && forall r <- rules :: r.dimension != x.dimension
    ensures var g := RulesOf(rules + [x], x.dimension); DimensionScore(g).None? && DimensionCoverage(g).None?
  {
    SelectAppend(rules, x, (r: RuleResult) => r.dimension == x.dimension);
    var a := RulesOf(rules, x.dimension);
    SelectsSome(rules, (r: RuleResult) => r.dimension == x.dimension);
    SelectAppend(a, x, MeasuredRule);
    SelectAppend(a, x, ExpectedRule);
    assert a + [x] == [x];
  }

  lemma NewDimension(rules: seq<RuleResult>, x: RuleResult, weights: map<string, real>, names: set<string>)
    requires Inert(x) && x.dimension !in names && forall r <- rules :: r.dimension in names
    ensures var ds := DimensionResults(rules + [x], SortedNames(names), weights);
            var es := DimensionResults(rules + [x], SortedNames(names + {x.dimension}), weights);
            DatasetScore(ds, weights) == DatasetScore(es, weights)
              && DatasetCoverage(ds, weights) == DatasetCoverage(es, weights)
  {
    hide DatasetScore, DatasetCoverage, DimensionResults, SortedNames, Inert, RulesOf, DimensionScore,
         DimensionCoverage;
    InertDimension(rules, x);
    var k := NamesInsert(names, x.dimension);
    ExtraNameSameTotals(rules + [x], SortedNames(names), k, x.dimension, weights);
  }

  lemma InertDataset(rules: seq<RuleResult>, x: RuleResult, weights: map<string, real>, required: set<string>)
    requires Inert(x)
    ensures var ds := DimensionResults(rules, SortedNames(Dimensions(rules, required)), weights);
            var es := DimensionResults(rules + [x], SortedNames(Dimensions(rules + [x], required)), weights);
            DatasetScore(ds, weights) == DatasetScore(es, weights)
              && DatasetCoverage(ds, weights) == DatasetCoverage(es, weights)
  {
    var before := Dimensions(rules, required);
    hide DatasetScore, DatasetCoverage, DimensionResults, SortedNames, Inert;
    SameNamesSameTotals(rules, x, SortedNames(before), weights);
    assert Dimensions(rules + [x], required) == before + {x.dimension};
    if x.dimension in before {
      assert before + {x.dimension} == before;
    } else {
      NewDimension(rules, x, weights, before);
    }
  }

  lemma InertGate(rules: seq<RuleResult>, x: RuleResult, score: Option<real>, coverage: Option<real>, p: Policy,
                  required: set<string>)
    requires Inert(x)
    ensures RequiredDimensions(rules + [x]) == RequiredDimensions(rules)
            && ScoredDimensions(rules + [x]) == ScoredDimensions(rules)
    ensures RequiredFailure(rules + [x]) == RequiredFailure(rules)
            && UnmeasuredRequired(rules + [x]) == UnmeasuredRequired(rules)
    ensures EvaluateTier(rules + [x], score, coverage, p, required) == EvaluateTier(rules, score, coverage, p, required)
  {
    var all := rules + [x];
    assert forall r :: r in all <==> r in rules || r == x;
    assert !CriticalViolated(x, p) && !GateMeasured(x) && !ExpectedRule(x) && !MeasuredRule(x);
    hide CriticalViolated, GateMeasured, ExpectedRule, MeasuredRule, Inert;
    assert MeasuredDimensions(all) == MeasuredDimensions(rules);
    assert (exists r <- all :: CriticalViolated(r, p)) <==> exists r <- rules :: CriticalViolated(r, p);
  }

  lemma OneInertResult(rules: seq<RuleResult>, x: RuleResult, p: Policy, succeeded: bool)
    requires Inert(x)
    ensures SameVerdict(Aggregate(rules, p, RequiredDimensions(rules), succeeded),
                        Aggregate(rules + [x], p, RequiredDimensions(rules + [x]), succeeded))
  {
    var required := RequiredDimensions(rules);
    InertGate(rules, x, None, None, p, required);
    InertDataset(rules, x, p.dimensionWeights, required);
    var s := Aggregate(rules, p, required, succeeded);
    InertGate(rules, x, s.score, s.coverage, p, required);
    AllRequiredMeasured(rules, p, required, succeeded);
    AllRequiredMeasured(rules + [x], p, required, succeeded);
    ScorecardParts(rules, p, required, succeeded);
    ScorecardParts(rules + [x], p, required, succeeded);
    hide EvaluateTier, DatasetScore, DatasetCoverage, DimensionResults, SortedNames, RequiredFailure,
         UnmeasuredRequired, RequiredDimensions, ScoredDimensions, Dimensions, NamesScored;
  }

  /** Everything a scorecard decides. */
  ghost predicate SameVerdict(s: Summary, t: Summary) {
    s.(dimensions := t.dimensions) == t
  }

  lemma {:induction false} InertResultsDecideNothing(rules: seq<RuleResult>, advisories: seq<RuleResult>, p: Policy,
                                                     succeeded: bool)
    requires forall r <- advisories :: Inert(r)
    ensures SameVerdict(Aggregate(rules, p, RequiredDimensions(rules), succeeded),
                        Aggregate(rules + advisories, p, RequiredDimensions(rules + advisories), succeeded))
    decreases |advisories|
  {
    hide Aggregate, RequiredDimensions, Inert;
    if advisories == [] {
      assert rules + advisories == rules;
    } else {
      var n := |advisories| - 1;
      assert advisories[n] in advisories && forall r <- advisories[..n] :: r in advisories;
      InertResultsDecideNothing(rules, advisories[..n], p, succeeded);
      assert rules + advisories == (rules + advisories[..n]) + [advisories[n]];
      OneInertResult(rules + advisories[..n], advisories[n], p, succeeded);
    }
  }

  /**
   Whatever the outlier detector reports of any columns changes neither score, coverage, gate, publication nor any flag.
   */
  lemma AdvisoriesDecideNothing(rules: seq<RuleResult>, inputs: seq<OutlierInput>, p: Policy, succeeded: bool)
    ensures SameVerdict(Aggregate(rules, p, RequiredDimensions(rules), succeeded),
                        Aggregate(rules + BuildAdvisories(inputs), p,
                                  RequiredDimensions(rules + BuildAdvisories(inputs)), succeeded))
  {
    hide Aggregate, RequiredDimensions, SameVerdict;
    assert forall r <- BuildAdvisories(inputs) :: Inert(r);
    hide BuildAdvisories, Inert;
    InertResultsDecideNothing(rules, BuildAdvisories(inputs), p, succeeded);
  }
}

/** The loops of the scoring services. */
module ScoringServices {
  import opened Wrappers
  import opened ScoringModels
  import opened Totals
  import opened RuleScoring
  import opened DimensionScoring
  import opened ScoreAggregator

  lemma NoRules()
    ensures forall n :: RulesOf([], n) == []
  {
  }

  lemma GroupAppend(rules: seq<RuleResult>, x: RuleResult)
    ensures forall n :: RulesOf(rules + [x], n) == if x.dimension == n then RulesOf(rules, n) + [x]
            else RulesOf(rules, n)
  {
    forall n
      ensures RulesOf(rules + [x], n) == if x.dimension == n then RulesOf(rules, n) + [x] else RulesOf(rules, n)
    {
      SelectAppend(rules, x, (q: RuleResult) => q.dimension == n);
    }
  }

  /** Groups the results in one pass, appending each to the list of its dimension. */
  method GroupByDimension(rules: seq<RuleResult>, dimensions: set<string>)
      returns (byDimension: map<string, seq<RuleResult>>)
    requires forall r <- rules :: r.dimension in dimensions
    ensures byDimension.Keys == dimensions && forall n <- dimensions :: byDimension[n] == RulesOf(rules, n)
  {
    byDimension := map n | n in dimensions :: [];
    hide Select;
    assert forall n :: RulesOf([], n) == [] by { NoRules(); }
    for i := 0 to |rules|
      invariant byDimension.Keys == dimensions
      invariant forall n <- dimensions :: byDimension[n] == RulesOf(rules[..i], n)
    {
      var x := rules[i];
      assert rules[..i + 1] == rules[..i] + [x];
      GroupAppend(rules[..i], x);
      hide RulesOf;
      byDimension := byDimension[x.dimension := byDimension[x.dimension] + [x]];
    }
    assert rules[..|rules|] == rules;
  }

  method ComputeEach(rules: seq<RuleResult>, names: seq<string>, byDimension: map<string, seq<RuleResult>>,
                     weights: map<string, real>)
      returns (r: seq<DimensionResult>)
    requires forall i :: 0 <= i < |names| ==>
               names[i] in byDimension && byDimension[names[i]] == RulesOf(rules, names[i])
    ensures r == DimensionResults(rules, names, weights)
  {
    r := [];
    hide RulesOf, RecordedWeight, ComputeDimensionResult;
    for i := 0 to |names|
      invariant |r| == i
      invariant forall k :: 0 <= k < i ==>
                  r[k] == ComputeDimensionResult(names[k], RulesOf(rules, names[k]), RecordedWeight(weights, names[k]))
    {
      r := r + [ComputeDimensionResult(names[i], byDimension[names[i]], RecordedWeight(weights, names[i]))];
    }
  }

  method ComputeAllDimensionResults(rules: seq<RuleResult>, required: set<string>, weights: map<string, real>)
      returns (r: seq<DimensionResult>)
    ensures r == DimensionResults(rules, SortedNames(Dimensions(rules, required)), weights)
  {
    var dimensions := Dimensions(rules, required);
    var byDimension := GroupByDimension(rules, dimensions);
    hide SortedNames, DimensionResults, RulesOf;
    var names := SortedNames(dimensions);
    assert forall i :: 0 <= i < |names| ==> names[i] in dimensions;
    r := ComputeEach(rules, names, byDimension, weights);
  }

  /** The last output for each rule id. */
  function LastOutput(outputs: seq<Output>, id: string): Option<Output> {
    if |outputs| == 0 then None
    else if outputs[|outputs| - 1].ruleId == id then Some(outputs[|outputs| - 1])
    else LastOutput(outputs[..|outputs| - 1], id)
  }

  const NO_COUNTS := Counts(0, 0, 0, 0, 0, 0)

  function OutputFor(outputs: seq<Output>, id: string): Output {
    match LastOutput(outputs, id)
    case Some(out) => out
    case None => Output(id, NO_COUNTS, NotMeasurable)
  }

  /** One result per rule, in rule order; an unknown null policy fails the whole run. */
  method ValidateRuleset(rules: seq<Rule>, outputs: seq<Output>) returns (results: Option<seq<RuleResult>>)
    ensures results.None? <==> exists r <- rules :: ProcessRuleResult(r, OutputFor(outputs, r.id)).None?
    ensures results.Some? ==>
              && |results.value| == |rules|
              && forall i :: 0 <= i < |rules| ==>
                   ProcessRuleResult(rules[i], OutputFor(outputs, rules[i].id)) == Some(results.value[i])
  {
    var byId: map<string, Output> := map[];
    for i := 0 to |outputs|
      invariant forall id :: (if id in byId then Some(byId[id]) else None) == LastOutput(outputs[..i], id)
    {
      assert outputs[..i + 1][..i] == outputs[..i];
      byId := byId[outputs[i].ruleId := outputs[i]];
    }
    assert outputs[..|outputs|] == outputs;
    var done: seq<RuleResult> := [];
    hide ProcessRuleResult, LastOutput;
    for i := 0 to |rules|
      invariant |done| == i
      invariant forall k :: 0 <= k < i ==> ProcessRuleResult(rules[k], OutputFor(outputs, rules[k].id)) == Some(done[k])
    {
      var rule := rules[i];
      var out := if rule.id in byId then byId[rule.id] else Output(rule.id, NO_COUNTS, NotMeasurable);
      var result := ProcessRuleResult(rule, out);
      if result.None? {
        return None;
      }
      done := done + [result.value];
    }
    results := Some(done);
  }

  /** The order in which the engine reports its outputs does not matter. */
  lemma {:induction false} OutputOrderDoesNotMatter(a: seq<Output>, b: seq<Output>, id: string)
    requires multiset(a) == multiset(b) && forall i, j :: 0 <= i < j < |a| ==> a[i].ruleId != a[j].ruleId
    ensures OutputFor(a, id) == OutputFor(b, id)
  {
    LastIsOnly(a, id);
    LastIsOnly(b, id);
    assert forall x :: x in a <==> x in multiset(a);
    assert forall x :: x in b <==> x in multiset(b);
  }

  lemma {:induction false} LastIsOnly(outputs: seq<Output>, id: string)
    ensures LastOutput(outputs, id).Some? ==>
              LastOutput(outputs, id).value in outputs && LastOutput(outputs, id).value.ruleId == id
    ensures LastOutput(outputs, id).None? ==> forall x <- outputs :: x.ruleId != id
  {
    if |outputs| > 0 {
      LastIsOnly(outputs[..|outputs| - 1], id);
      assert outputs == outputs[..|outputs| - 1] + [outputs[|outputs| - 1]];
    }
  }
}
