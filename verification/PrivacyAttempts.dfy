/**
 Why the scans of a job are bounded and not its attempts: claiming never looks at the attempt count, it only raises it.
 */
module PrivacyAttempts {
  import opened Wrappers
  import opened DetectorRules
  import opened PrivacyTables
  import T = PrivacyTransactions
  import opened PrivacySystem
  import opened PrivacyRuns

  /** A snapshot and one scan of it. */
  function Submitted(tenant: string, column: string): seq<Step> {
    [Register(tenant, None, [column], Unavailable, None, []), CreateScan(0, T.ApplyAll)]
  }

  /** A worker that dies after each of `n` claims, every time until its lease of `seconds` has run out. */
  function CrashLoop(tenant: string, column: string, seconds: nat, n: nat): seq<Step>
    decreases n
  {
    if n == 0 then Submitted(tenant, column)
    else CrashLoop(tenant, column, seconds, n - 1) + [Tick(seconds)] + [Claim("worker", seconds, {})]
  }

  /** The only job, claimable again `seconds` later, has been claimed `n` times. */
  ghost predicate OnlyJob(t: Tables, seconds: nat, n: nat) {
    && |t.jobs| == 1 && t.jobs[0].attempts == n && t.jobs[0].generation == n
    && T.Claimable(t.jobs[0], t.clock + seconds + 1)
  }

  lemma RegisterFirst(tenant: string, column: string)
    ensures Linked(START.db)
    ensures Next(START, Register(tenant, None, [column], Unavailable, None, [])).db ==
              EMPTY.(clock := 1, assets := [Asset(tenant, 0, map[], map[])],
                     snapshots := [Snapshot(0, [column], Unavailable)])
  {
  }

  lemma ScanFirst(w: World, tenant: string, column: string, seconds: nat)
    requires w.db == EMPTY.(clock := 1, assets := [Asset(tenant, 0, map[], map[])],
                            snapshots := [Snapshot(0, [column], Unavailable)])
    ensures Linked(w.db) && OnlyJob(Next(w, CreateScan(0, T.ApplyAll)).db, seconds, 0)
  {
    hide SeedBook, Load;
    assert T.ActiveJob(w.db.jobs, 0, Apply) == None;
  }

  lemma ClaimAgain(w: World, seconds: nat, n: nat)
    requires Linked(w.db) && OnlyJob(w.db, seconds, n)
    ensures Linked(Next(w, Tick(seconds)).db)
    ensures OnlyJob(Next(Next(w, Tick(seconds)), Claim("worker", seconds, {})).db, seconds, n + 1)
  {
    var t := Advance(Next(w, Tick(seconds))).db;
    assert t.jobs[..0] == [];
    assert T.Oldest(t.jobs, t.clock, {}) == Some(0);
  }

  /** With leases of any length the settings allow, any number of attempts is reachable. */
  lemma {:induction false} AttemptsUnbounded(tenant: string, column: string, seconds: nat, n: nat)
    requires seconds >= T.MIN_LEASE_SECONDS
    ensures OnlyJob(Run(CrashLoop(tenant, column, seconds, n)).db, seconds, n)
    decreases n
  {
    hide Run, Next, OnlyJob, WorldInv, Linked;
    if n == 0 {
      var s1, s2 := Register(tenant, None, [column], Unavailable, None, []), CreateScan(0, T.ApplyAll);
      assert [] + [s1] == [s1] && [s1] + [s2] == Submitted(tenant, column);
      StartOfRun();
      RunExtend([], s1);
      RunExtend([s1], s2);
      RegisterFirst(tenant, column);
      ScanFirst(Run([s1]), tenant, column, seconds);
    } else {
      var before := CrashLoop(tenant, column, seconds, n - 1);
      AttemptsUnbounded(tenant, column, seconds, n - 1);
      RunExtend(before, Tick(seconds));
      RunExtend(before + [Tick(seconds)], Claim("worker", seconds, {}));
      ClaimAgain(Run(before), seconds, n - 1);
    }
  }

  lemma StartOfRun()
    ensures Run([]) == START
  {
  }

  // ---- attempts are leases ---------------------------------------------------------------------

  /** How many leases of a scan have been handed out. */
  function LeasesOf(workers: seq<Held>, scan: nat): nat {
    if |workers| == 0 then 0
    else LeasesOf(workers[..|workers| - 1], scan) + (if workers[|workers| - 1].lease.scan == scan then 1 else 0)
  }

  lemma {:induction false} SameLeases(a: seq<Held>, b: seq<Held>, scan: nat)
    requires |a| == |b| && forall i :: 0 <= i < |a| ==> a[i].lease == b[i].lease
    ensures LeasesOf(a, scan) == LeasesOf(b, scan)
  {
    if |a| > 0 { SameLeases(a[..|a| - 1], b[..|b| - 1], scan); }
  }

  function AttemptsOf(jobs: seq<Job>, scan: nat): nat {
    if scan < |jobs| then jobs[scan].attempts else 0
  }

  lemma PublishKeepsAttempts(t: Tables, l: T.Lease, found: seq<Hit>, scan: nat)
    requires Linked(t)
    ensures AttemptsOf(T.Publish(t, l, found).0.jobs, scan) == AttemptsOf(t.jobs, scan)
  {
    hide Linked, T.WriteFindings;
  }

  lemma RegisterKeepsAttempts(w: World, step: Step, scan: nat)
    requires Linked(w.db) && step.Register?
    ensures AttemptsOf(Do(w, step).db.jobs, scan) == AttemptsOf(w.db.jobs, scan)
  {
    hide Linked, T.FirstOfEach;
  }

  /** Only a claim hands out a lease or counts an attempt. */
  lemma OtherStepsKeepAttempts(w: World, step: Step, scan: nat)
    requires Linked(w.db) && !step.Claim?
    ensures AttemptsOf(Do(w, step).db.jobs, scan) == AttemptsOf(w.db.jobs, scan)
    ensures LeasesOf(Do(w, step).workers, scan) == LeasesOf(w.workers, scan)
  {
    hide Linked, T.Publish, T.Register, LeasesOf, SeedBook, CreateRule, UpdateRule, Load, T.PinFor;
    SameLeases(w.workers, Do(w, step).workers, scan);
    if step.Publish? && step.worker < |w.workers| {
      PublishKeepsAttempts(w.db, w.workers[step.worker].lease, step.found, scan);
    } else if step.Register? {
      RegisterKeepsAttempts(w, step, scan);
    }
  }

  lemma LeasesAppend(workers: seq<Held>, h: Held, scan: nat)
    ensures LeasesOf(workers + [h], scan) == LeasesOf(workers, scan) + (if h.lease.scan == scan then 1 else 0)
  {
    assert (workers + [h])[..|workers|] == workers;
  }

  lemma ClaimCounts(w: World, owner: string, seconds: nat, locked: set<nat>, scan: nat)
    requires Linked(w.db) && AttemptsOf(w.db.jobs, scan) == LeasesOf(w.workers, scan)
    ensures var v := Do(w, Claim(owner, seconds, locked)); AttemptsOf(v.db.jobs, scan) == LeasesOf(v.workers, scan)
  {
    hide Linked, LeasesOf, T.Oldest;
    var n := T.Oldest(w.db.jobs, w.db.clock, locked);
    if n.Some? {
      var lease := T.Claim(w.db, owner, seconds, locked).1.value;
      LeasesAppend(w.workers, Held(lease, Claimed, false, false), scan);
    }
  }

  /** In every run the attempts of a job are the leases handed out for it, so they pass three exactly when those do. */
  lemma {:induction false} AttemptsAreLeases(steps: seq<Step>, scan: nat)
    ensures AttemptsOf(Run(steps).db.jobs, scan) == LeasesOf(Run(steps).workers, scan)
    ensures AttemptsOf(Run(steps).db.jobs, scan) > T.MAX_ATTEMPTS <==>
              LeasesOf(Run(steps).workers, scan) > T.MAX_ATTEMPTS
  {
    if |steps| > 0 {
      var before, step := Run(steps[..|steps| - 1]), steps[|steps| - 1];
      AttemptsAreLeases(steps[..|steps| - 1], scan);
      hide AttemptsOf, LeasesOf, Next, WorldInv, Linked;
      StepCounts(before, step, scan);
    } else {
      assert START.db.jobs == [] && START.workers == [];
    }
  }

  lemma StepCounts(w: World, step: Step, scan: nat)
    requires Linked(w.db) && AttemptsOf(w.db.jobs, scan) == LeasesOf(w.workers, scan)
    ensures AttemptsOf(Next(w, step).db.jobs, scan) == LeasesOf(Next(w, step).workers, scan)
  {
    var v := Advance(w);
    assert Linked(v.db);
    hide Linked, Do, AttemptsOf, LeasesOf;
    if step.Claim? {
      ClaimCounts(v, step.owner, step.lease, step.locked, scan);
    } else {
      OtherStepsKeepAttempts(v, step, scan);
    }
  }
}
