/** One leased evaluation run: which calls it makes on its ports, in which order, and how it ends. */
module EvaluationRun {
  import opened Wrappers
  import opened ScoringModels
  import opened DimensionScoring
  import opened ScoreAggregator
  import opened ScoringLaws

  /** A port call returns, reports a lost lease, or fails in any other way. */
  datatype Reply = Fine | LeaseGone | Broken

  /** How the ports answer during this run; no results stands for a compute or scoring failure. */
  datatype Ports = Ports(leaseHeld: bool, firstVerify: Reply, results: Result<seq<RuleResult>, Reply>,
                         secondVerify: Reply, save: Reply, completed: bool)

  datatype Call =
    | Heartbeat
    | Verify(reply: Reply)
    | Validate
    | Save(payload: Payload, reply: Reply)
    | CompleteSucceeded(done: bool)
    | CompleteFailed
    | Release

  datatype End = Assessed(payload: Payload) | LeaseError | RunError

  /** What the run records for its results. */
  function PayloadOf(snapshot: string, results: seq<RuleResult>, p: Policy): Payload {
    HashPayload(snapshot, Aggregate(results, p, RequiredDimensions(results), true), results)
  }

  ghost predicate Saved(calls: seq<Call>, i: nat) {
    i < |calls| && calls[i].Save? && calls[i].reply.Fine?
  }

  method ExecuteLeasedRun(ports: Ports, snapshot: string, p: Policy) returns (calls: seq<Call>, end: End)
    // An assessment is saved at most once, for exactly these results, after the snapshot was verified before and after
    // scoring.
    ensures forall i :: 0 <= i < |calls| && calls[i].Save? ==>
              && i == 4 && calls[..4] == [Heartbeat, Verify(Fine), Validate, Verify(Fine)]
              && ports.leaseHeld && ports.results.Success?
                 && calls[i].payload == PayloadOf(snapshot, ports.results.value, p)
    // A run is completed as succeeded only after its assessment was saved, and never as both.
    ensures forall i :: 0 <= i < |calls| && calls[i].CompleteSucceeded? ==> i == 5 && Saved(calls, 4)
    ensures forall i, j :: 0 <= i < |calls| && 0 <= j < |calls| && calls[i].CompleteSucceeded? ==>
              !calls[j].CompleteFailed?
    // Losing the lease records no failure; any other failure records one.
    ensures end.LeaseError? ==> CompleteFailed !in calls
    ensures end.RunError? <==> CompleteFailed in calls
    // The snapshot is released last, and always once the run has begun.
    ensures (Release in calls <==> ports.leaseHeld) && (ports.leaseHeld ==> calls[|calls| - 1] == Release)
    ensures forall i :: 0 <= i < |calls| - 1 ==> calls[i] != Release
    // The run yields an assessment exactly when everything went well.
    ensures end.Assessed? <==>
              && ports.leaseHeld && ports.firstVerify.Fine? && ports.results.Success? && ports.secondVerify.Fine?
              && ports.save.Fine? && ports.completed
    ensures end.Assessed? ==> Saved(calls, 4) && calls[4].payload == end.payload
  {
    hide PayloadOf;
    calls := [Heartbeat];
    if !ports.leaseHeld {
      return calls, LeaseError;
    }
    var failure: Reply := Fine;
    calls := calls + [Verify(ports.firstVerify)];
    if !ports.firstVerify.Fine? {
      failure := ports.firstVerify;
    } else {
      calls := calls + [Validate];
      if ports.results.Failure? {
        failure := if ports.results.error.LeaseGone? then LeaseGone else Broken;
      } else {
        var payload := PayloadOf(snapshot, ports.results.value, p);
        calls := calls + [Verify(ports.secondVerify)];
        if !ports.secondVerify.Fine? {
          failure := ports.secondVerify;
        } else {
          calls := calls + [Save(payload, ports.save)];
          if !ports.save.Fine? {
            failure := ports.save;
          } else {
            calls := calls + [CompleteSucceeded(ports.completed)];
            if ports.completed {
              end := Assessed(payload);
            } else {
              failure := LeaseGone;
            }
          }
        }
      }
    }
    if failure.LeaseGone? {
      end := LeaseError;
    } else if failure.Broken? {
      calls := calls + [CompleteFailed];
      end := RunError;
    }
    calls := calls + [Release];
  }
}
