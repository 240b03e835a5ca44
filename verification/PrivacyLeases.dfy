/** What a claim hands out and how long a lease is exclusive, in terms of job rows, owners and the clock alone. */
module PrivacyLeases {
  import opened Wrappers
  import opened DetectorRules
  import opened PrivacyTables
  import T = PrivacyTransactions
  import opened PrivacySystem
  import opened PrivacyInvariants
  import opened PrivacyRuns

  /** A job nobody works on: queued, or running under a lease that expired before `now`. */
  ghost predicate Abandoned(j: Job, now: nat) {
    j.state == Queued || (j.state == Running && j.hold.Some? && j.hold.value.expiresAt < now)
  }

  /** Among the unlocked abandoned jobs, `n` is the oldest. */
  ghost predicate OldestAbandoned(jobs: seq<Job>, now: nat, locked: set<nat>, n: nat) {
    && n < |jobs| && n !in locked && Abandoned(jobs[n], now)
    && forall m :: 0 <= m < |jobs| && m !in locked && Abandoned(jobs[m], now) ==> jobs[n].createdAt <= jobs[m].createdAt
  }

  lemma {:induction false} OldestIsOldest(jobs: seq<Job>, now: nat, locked: set<nat>)
    ensures var n := T.Oldest(jobs, now, locked);
            && (n.Some? ==> OldestAbandoned(jobs, now, locked, n.value))
            && (n.None? ==> forall m :: 0 <= m < |jobs| && m !in locked ==> !Abandoned(jobs[m], now))
  {
    if |jobs| > 0 {
      OldestIsOldest(jobs[..|jobs| - 1], now, locked);
    }
  }

  /** The job after a claim: running under a new lease of `owner`, one generation and one attempt on. */
  ghost predicate ClaimedBy(a: Job, b: Job, owner: string, until: nat) {
    b == a.(state := Running, hold := Some(Hold(owner, until)), generation := a.generation + 1,
            attempts := a.attempts + 1)
  }

  /** Nobody gets a lease: every unlocked job is under a live lease or has ended, and no row moves. */
  ghost predicate NothingHandedOut(t: Tables, u: Tables, locked: set<nat>) {
    u == t && forall m :: 0 <= m < |t.jobs| && m !in locked ==> !Abandoned(t.jobs[m], t.clock)
  }

  /** The oldest unlocked abandoned job goes to `owner` for `seconds`, and no other row moves. */
  ghost predicate HandedOut(t: Tables, u: Tables, l: T.Lease, owner: string, seconds: nat, locked: set<nat>) {
    && OldestAbandoned(t.jobs, t.clock, locked, l.scan)
    && |u.jobs| == |t.jobs| && ClaimedBy(t.jobs[l.scan], u.jobs[l.scan], owner, t.clock + seconds)
    && u == t.(jobs := t.jobs[l.scan := u.jobs[l.scan]])
    && l == T.Lease(l.scan, owner, u.jobs[l.scan].generation, u.jobs[l.scan].attempts)
  }

  lemma ClaimExactly(t: Tables, owner: string, seconds: nat, locked: set<nat>)
    ensures var (u, lease) := T.Claim(t, owner, seconds, locked);
            if lease.None? then NothingHandedOut(t, u, locked) else HandedOut(t, u, lease.value, owner, seconds, locked)
  {
    OldestIsOldest(t.jobs, t.clock, locked);
    hide T.Oldest, OldestAbandoned, Abandoned;
    match T.Oldest(t.jobs, t.clock, locked)
    case None =>
    case Some(n) => OldestInRange(t.jobs, t.clock, locked, n);
  }

  lemma OldestInRange(jobs: seq<Job>, now: nat, locked: set<nat>, n: nat)
    requires OldestAbandoned(jobs, now, locked, n)
    ensures n < |jobs|
  {
  }

  lemma ClaimStep(w: World, owner: string, seconds: nat, locked: set<nat>)
    requires Linked(w.db)
    ensures var v := Next(w, Claim(owner, seconds, locked));
            if |v.workers| == |w.workers| then
              v.workers == w.workers && NothingHandedOut(Advance(w).db, v.db, locked)
            else
              && |v.workers| == |w.workers| + 1 && v.workers[..|w.workers|] == w.workers
              && HandedOut(Advance(w).db, v.db, v.workers[|w.workers|].lease, owner, seconds, locked)
              && v.workers[|w.workers|] == Held(v.workers[|w.workers|].lease, Claimed, false, false)
  {
    ClaimExactly(Advance(w).db, owner, seconds, locked);
    hide Linked, T.Claim, HandedOut;
  }

  /**
   A claim takes the oldest unlocked job that is queued or whose lease has run out, never one under a live lease, and
   moves only that job; when there is none, nobody gets a lease and no job moves.
   */
  lemma ClaimHandsOut(before: seq<Step>, owner: string, seconds: nat, locked: set<nat>)
    ensures var w, v := Run(before), Run(before + [Claim(owner, seconds, locked)]);
            if |v.workers| == |w.workers| then
              v.workers == w.workers && NothingHandedOut(Advance(w).db, v.db, locked)
            else
              && |v.workers| == |w.workers| + 1 && v.workers[..|w.workers|] == w.workers
              && HandedOut(Advance(w).db, v.db, v.workers[|w.workers|].lease, owner, seconds, locked)
              && v.workers[|w.workers|] == Held(v.workers[|w.workers|].lease, Claimed, false, false)
  {
    hide *;
    RunExtend(before, Claim(owner, seconds, locked));
    ClaimStep(Run(before), owner, seconds, locked);
  }

  // ---- a lease is exclusive while it lasts -----------------------------------------------------

  /** Worker `i` holds its job under its own lease until `until` at least. */
  ghost predicate HeldUntil(w: World, i: nat, until: nat) {
    && i < |w.workers| && w.workers[i].lease.scan < |w.db.jobs|
    && var l, j := w.workers[i].lease, w.db.jobs[w.workers[i].lease.scan];
       && j.state == Running && j.generation == l.generation
       && j.hold.Some? && j.hold.value.owner == l.owner && j.hold.value.expiresAt >= until
  }

  /** What worker `i` can do to shorten its lease: publish, give up, or ask for less time. */
  ghost predicate LetsGo(step: Step, i: nat, until: nat, now: nat) {
    || ((step.Publish? || step.Fail?) && step.worker == i)
    || (step.Heartbeat? && step.worker == i && now + step.lease < until)
  }

  lemma JobUntouched(w: World, step: Step, n: nat)
    requires Linked(w.db) && n < |w.db.jobs| && !step.Claim? && !step.Heartbeat? && !step.Publish? && !step.Fail?
    ensures n < |Do(w, step).db.jobs| && Do(w, step).db.jobs[n] == w.db.jobs[n]
  {
    hide Linked, T.FirstOfEach, T.PinFor, SeedBook, Load, CreateRule, UpdateRule;
  }

  lemma LeaseUntouched(w: World, step: Step, i: nat)
    requires Linked(w.db) && i < |w.workers|
    ensures i < |Do(w, step).workers| && Do(w, step).workers[i].lease == w.workers[i].lease
  {
    hide Linked, T.Publish, T.Register, T.Fail;
  }

  /** A write under the lease of another worker does not pass the fence of this job. */
  lemma OthersAreFencedOut(w: World, i: nat, k: nat, until: nat)
    requires WorkersFit(w) && HeldUntil(w, i, until) && k < |w.workers| && k != i
    ensures w.workers[k].lease.scan == w.workers[i].lease.scan ==> !T.Fenced(w.db, w.workers[k].lease)
  {
    assert k < i || i < k;
  }

  lemma WriteElsewhere(t: Tables, l: T.Lease, n: nat, seconds: nat, found: seq<Hit>, code: ErrorCode)
    requires Linked(t) && n < |t.jobs| && (l.scan == n ==> !T.Fenced(t, l))
    ensures T.Heartbeat(t, l, seconds).0.jobs[n] == t.jobs[n]
    ensures n < |T.Fail(t, l, code).0.jobs| && T.Fail(t, l, code).0.jobs[n] == t.jobs[n]
    ensures n < |T.Publish(t, l, found).0.jobs| && T.Publish(t, l, found).0.jobs[n] == t.jobs[n]
  {
    hide Linked, T.WriteFindings;
  }

  lemma ClaimElsewhere(w: World, step: Step, i: nat, until: nat)
    requires Linked(w.db) && step.Claim? && HeldUntil(w, i, until) && w.db.clock <= until
    ensures HeldUntil(Do(w, step), i, until)
  {
    OldestIsOldest(w.db.jobs, w.db.clock, step.locked);
    hide Linked, T.Oldest;
  }

  lemma LeaseWriteKeeps(w: World, step: Step, i: nat, until: nat)
    requires Linked(w.db) && WorkersFit(w) && HeldUntil(w, i, until) && !LetsGo(step, i, until, w.db.clock)
    requires step.Heartbeat? || step.Publish? || step.Fail?
    ensures HeldUntil(Do(w, step), i, until)
  {
    LeaseUntouched(w, step, i);
    var n := w.workers[i].lease.scan;
    var k := step.worker;
    if k < |w.workers| && k != i {
      OthersAreFencedOut(w, i, k, until);
      match step
      case Heartbeat(_, seconds) => WriteElsewhere(w.db, w.workers[k].lease, n, seconds, [], ScanFailed);
      case Publish(_, found) => WriteElsewhere(w.db, w.workers[k].lease, n, 0, found, ScanFailed);
      case Fail(_, code) => WriteElsewhere(w.db, w.workers[k].lease, n, 0, [], code);
    }
    hide Linked, WorkersFit, T.Publish, T.Fail;
  }

  lemma StepKeepsHeld(w: World, step: Step, i: nat, until: nat)
    requires Linked(w.db) && WorkersFit(w) && HeldUntil(w, i, until)
    requires w.db.clock <= until && !LetsGo(step, i, until, w.db.clock)
    ensures HeldUntil(Do(w, step), i, until)
  {
    hide Linked, WorkersFit, Do, LetsGo;
    if step.Claim? {
      ClaimElsewhere(w, step, i, until);
    } else if step.Heartbeat? || step.Publish? || step.Fail? {
      LeaseWriteKeeps(w, step, i, until);
    } else {
      JobUntouched(w, step, w.workers[i].lease.scan);
      LeaseUntouched(w, step, i);
    }
  }

  /** Nothing in `more` lets the lease of worker `i` go before `until`. */
  ghost predicate KeptUp(before: seq<Step>, more: seq<Step>, i: nat, until: nat) {
    forall k :: 0 <= k < |more| ==> !LetsGo(more[k], i, until, Run(before + more[..k]).db.clock + 1)
  }

  lemma KeptUpFront(before: seq<Step>, more: seq<Step>, i: nat, until: nat)
    requires |more| > 0 && KeptUp(before, more, i, until)
    ensures KeptUp(before, more[..|more| - 1], i, until)
    ensures !LetsGo(more[|more| - 1], i, until, Run(before + more[..|more| - 1]).db.clock + 1)
  {
    hide LetsGo, Run;
    var front := more[..|more| - 1];
    forall k | 0 <= k < |front|
      ensures !LetsGo(front[k], i, until, Run(before + front[..k]).db.clock + 1)
    {
      assert front[..k] == more[..k];
    }
  }

  lemma ClockRuns(w: World, step: Step)
    requires Linked(w.db)
    ensures Do(w, step).db.clock >= w.db.clock
  {
    hide Linked, T.Publish, T.Register, T.Fail, T.FirstOfEach;
    PublishClock(w, step);
    RegisterClock(w, step);
    FailClock(w, step);
  }

  lemma PublishClock(w: World, step: Step)
    requires Linked(w.db)
    ensures step.Publish? ==> Do(w, step).db.clock == w.db.clock
  {
    hide Linked, T.Rows, T.DecisionsBefore;
  }

  lemma RegisterClock(w: World, step: Step)
    requires Linked(w.db)
    ensures step.Register? ==> Do(w, step).db.clock == w.db.clock
  {
    hide Linked, T.FirstOfEach;
  }

  lemma FailClock(w: World, step: Step)
    requires Linked(w.db)
    ensures step.Fail? ==> Do(w, step).db.clock == w.db.clock
  {
    hide Linked;
  }

  lemma OneStepHeld(w: World, step: Step, i: nat, until: nat)
    requires WorldInv(w) && HeldUntil(w, i, until) && !LetsGo(step, i, until, w.db.clock + 1)
    requires Linked(w.db) && Next(w, step).db.clock <= until
    ensures HeldUntil(Next(w, step), i, until)
  {
    AdvanceKeepsWorld(w);
    InvLinked(Advance(w).db);
    ClockRuns(Advance(w), step);
    assert HeldUntil(Advance(w), i, until);
    hide Inv, Do, HeldUntil, LetsGo, Linked, WorkersFit;
    StepKeepsHeld(Advance(w), step, i, until);
  }

  /**
   While a lease lasts it is the job's only one: whatever runs in between, up to the moment it was granted or extended
   to the job stays running under it, no later lease exists and its holder may still write, unless the holder itself
   published, gave up or asked for less.
   */
  lemma {:induction false} LeaseIsExclusive(before: seq<Step>, more: seq<Step>, i: nat, until: nat)
    requires HeldUntil(Run(before), i, until) && KeptUp(before, more, i, until)
    requires Run(before + more).db.clock <= until
    ensures HeldUntil(Run(before + more), i, until)
    ensures T.Fenced(Run(before + more).db, Run(before + more).workers[i].lease)
    decreases |more|
  {
    hide WorldInv, Next, Run, KeptUp, LetsGo;
    if |more| == 0 {
      assert before + more == before;
    } else {
      var front, last := more[..|more| - 1], more[|more| - 1];
      assert before + more == (before + front) + [last];
      RunExtend(before + front, last);
      KeptUpFront(before, more, i, until);
      ClockOnlyGrows(Run(before + front), last);
      LeaseIsExclusive(before, front, i, until);
      OneStepHeld(Run(before + front), last, i, until);
    }
  }

  lemma ClockOnlyGrows(w: World, step: Step)
    requires WorldInv(w) && Linked(w.db)
    ensures w.db.clock <= Next(w, step).db.clock
  {
    AdvanceKeepsWorld(w);
    InvLinked(Advance(w).db);
    ClockRuns(Advance(w), step);
    hide Do, Inv, Linked;
  }

  lemma HandedOutIsHeld(t: Tables, v: World, l: T.Lease, owner: string, seconds: nat, locked: set<nat>)
    requires HandedOut(t, v.db, l, owner, seconds, locked) && |v.workers| > 0 && v.workers[|v.workers| - 1].lease == l
    ensures HeldUntil(v, |v.workers| - 1, v.db.clock + seconds)
  {
    OldestInRange(t.jobs, t.clock, locked, l.scan);
    hide OldestAbandoned;
  }

  /** A claim grants the lease for `seconds`. */
  lemma ClaimIsHeld(before: seq<Step>, owner: string, seconds: nat, locked: set<nat>)
    requires |Run(before + [Claim(owner, seconds, locked)]).workers| > |Run(before).workers|
    ensures var v := Run(before + [Claim(owner, seconds, locked)]);
            HeldUntil(v, |Run(before).workers|, v.db.clock + seconds)
  {
    hide *;
    var v := Run(before + [Claim(owner, seconds, locked)]);
    ClaimHandsOut(before, owner, seconds, locked);
    HandedOutIsHeld(Advance(Run(before)).db, v, v.workers[|Run(before).workers|].lease, owner, seconds, locked);
  }

  /** A heartbeat of a worker whose lease has not run out grants it for `seconds` from now. */
  lemma HeartbeatIsHeld(before: seq<Step>, i: nat, seconds: nat)
    requires var w := Run(before); HeldUntil(w, i, w.db.clock + 1) && !w.workers[i].phase.Finished?
    ensures var v := Next(Run(before), Heartbeat(i, seconds)); HeldUntil(v, i, v.db.clock + seconds)
  {
    hide Run, WorldInv, Linked;
  }
}
