/** Values of the scoring pipeline. Floats are exact reals. */
module ScoringModels {
  import opened Wrappers

  datatype Measurement =
    | Measured | NotApplicable | NotMeasurable | FailedToMeasure | InsufficientData | SkippedByBudget

  /** Record counts of one rule. */
  datatype Counts = Counts(passed: int, failed: int, missing: int, miscast: int, notApplicable: int, total: int)

  /** A configured rule; `nullPolicy` is free text that only scoring interprets. */
  datatype Rule = Rule(id: string, dimension: string, critical: bool, required: bool, gateEnabled: bool,
                       scoreEnabled: bool, primary: bool, weight: real, acceptance: Option<real>, nullPolicy: string)

  datatype Output = Output(ruleId: string, counts: Counts, status: Measurement)

  datatype RuleResult = RuleResult(id: string, dimension: string, status: Measurement, critical: bool, advisory: bool,
                                   required: bool, gateEnabled: bool, scoreEnabled: bool, primary: bool, weight: real,
                                   acceptance: Option<real>, confidence: Option<real>, score: Option<real>,
                                     violations: int)

  datatype Policy = Policy(publicationThreshold: real, warnMin: real, passMin: real, minCriticalConfidence: real,
                           criticalAcceptance: Option<real>, dimensionWeights: map<string, real>)

  /** What the policy validator accepts. */
  predicate Acceptable(p: Policy) {
    && 0.0 <= p.publicationThreshold <= 1.0 && 0.0 <= p.warnMin <= p.passMin <= 100.0
    && 0.0 <= p.minCriticalConfidence <= 1.0
    && (p.criticalAcceptance.Some? ==> 0.0 <= p.criticalAcceptance.value <= 100.0)
  }

  datatype DimensionResult = DimensionResult(dimension: string, score: Option<real>, coverage: Option<real>,
                                             rules: seq<RuleResult>, weight: real)

  datatype Gate = GateError | GateFail | GateInsufficientEvidence | GateWarn | GatePass
  datatype Publication = Published | Withheld

  datatype Summary = Summary(score: Option<real>, coverage: Option<real>, gate: Gate, publication: Publication,
                             publishedScore: Option<real>, dimensions: seq<DimensionResult>, allRequiredMeasured: bool,
                             hasFailedRequired: bool, hasUnmeasuredRequired: bool)
}
