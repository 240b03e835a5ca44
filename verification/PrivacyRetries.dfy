/** A transient failure is final only after three attempts. */
module PrivacyRetries {
  import opened PrivacyTables
  import T = PrivacyTransactions
  import opened PrivacySystem
  import opened PrivacyInvariants
  import opened PrivacyHistory
  import opened PrivacyRuns

  ghost predicate BudgetUsed(j: Job) {
    j.state.Failed? ==> j.error.Some? && (T.Transient(j.error.value) ==> j.attempts >= T.MAX_ATTEMPTS)
  }

  ghost predicate AllBudgetsUsed(jobs: seq<Job>) {
    forall j <- jobs :: BudgetUsed(j)
  }

  lemma QuietStep(a: Tables, b: Tables)
    requires AllBudgetsUsed(a.jobs) && NoScanEnds(a, b)
    ensures AllBudgetsUsed(b.jobs)
  {
    forall i | 0 <= i < |b.jobs|
      ensures BudgetUsed(b.jobs[i])
    {
      if i < |a.jobs| { assert BudgetUsed(a.jobs[i]); }
    }
  }

  lemma PublishStep(t: Tables, l: T.Lease, found: seq<Hit>)
    requires Linked(t) && AllBudgetsUsed(t.jobs)
    ensures AllBudgetsUsed(T.Publish(t, l, found).0.jobs)
  {
    hide T.WriteFindings, T.Insertable, Linked;
    assert T.Publish(t, l, found).0.jobs == t.jobs
           || (l.scan < |t.jobs| && exists j: Job ::
               j.state.Complete? && T.Publish(t, l, found).0.jobs == t.jobs[l.scan := j]);
  }

  lemma FailStep(t: Tables, h: Held, code: ErrorCode)
    requires AllLeased(t.jobs) && LeaseFits(t, h) && AllBudgetsUsed(t.jobs)
    ensures AllBudgetsUsed(T.Fail(t, h.lease, code).0.jobs)
  {
    var u := T.Fail(t, h.lease, code).0;
    assert Leased(t.jobs[h.lease.scan]);
    if u.jobs != t.jobs {
      assert u.jobs == t.jobs[h.lease.scan := u.jobs[h.lease.scan]];
      assert BudgetUsed(u.jobs[h.lease.scan]);
    }
  }

  lemma DoKeepsBudgets(w: World, step: Step)
    requires WorldInv(w) && AllBudgetsUsed(w.db.jobs)
    ensures Linked(w.db) && AllBudgetsUsed(Do(w, step).db.jobs)
  {
    InvLinked(w.db);
    assert AllLeased(w.db.jobs) && WorkersFit(w);
    hide WorldInv, Inv, AllLeased, AllBudgetsUsed, LeaseFits, DistinctLeases, Linked, NoScanEnds, T.Publish, T.Fail;
    match step
    case Publish(i, found) => if i < |w.workers| { PublishStep(w.db, w.workers[i].lease, found); }
    case Fail(i, code) => if i < |w.workers| { FailStep(w.db, w.workers[i], code); }
    case _ =>
      NoScanEndsHere(w, step);
      QuietStep(w.db, Do(w, step).db);
  }

  lemma {:induction false} RunUsesBudgets(steps: seq<Step>)
    ensures AllBudgetsUsed(Run(steps).db.jobs)
  {
    if |steps| > 0 {
      var before := Run(steps[..|steps| - 1]);
      RunUsesBudgets(steps[..|steps| - 1]);
      hide Run, Do, WorldInv;
      AdvanceKeepsWorld(before);
      DoKeepsBudgets(Advance(before), steps[|steps| - 1]);
    }
  }

  /** In every reachable state, a scan that gave up on a transient failure had at least three attempts. */
  lemma TransientFailuresAreRetried(steps: seq<Step>, scan: nat)
    requires scan < |Run(steps).db.jobs| && Run(steps).db.jobs[scan].state.Failed?
    ensures var j := Run(steps).db.jobs[scan];
            j.error.Some? && (j.error.value.StorageUnavailable? || j.error.value.ScanFailed? ==>
                              j.attempts >= T.MAX_ATTEMPTS)
  {
    RunUsesBudgets(steps);
    hide Run;
    assert BudgetUsed(Run(steps).db.jobs[scan]);
  }
}
