/** The invariant of the whole system, kept by every step and so by every run. */
module PrivacyRuns {
  import opened Wrappers
  import opened DetectorRules
  import opened PrivacyTables
  import T = PrivacyTransactions
  import opened PrivacySystem
  import opened PrivacyInvariants
  import opened PrivacyHistory

  /** A lease a worker holds was really handed out, scans only within the attempt limit and publishes the job's end. */
  ghost predicate LeaseFits(db: Tables, h: Held) {
    && h.lease.scan < |db.jobs|
    && var j := db.jobs[h.lease.scan];
       && 1 <= h.lease.generation == h.lease.attempt <= j.generation
       && (h.scanned ==> h.lease.attempt <= T.MAX_ATTEMPTS)
       && (h.phase.Scanning? ==> h.scanned)
       && (h.published ==> h.phase.Finished? && j.state.Complete? && j.generation == h.lease.generation)
  }

  ghost predicate DistinctLeases(workers: seq<Held>) {
    forall i, j :: 0 <= i < j < |workers| && workers[i].lease.scan == workers[j].lease.scan ==>
      workers[i].lease.generation != workers[j].lease.generation
  }

  ghost predicate WorkersFit(w: World) {
    && (forall h <- w.workers :: LeaseFits(w.db, h))
    && DistinctLeases(w.workers)
  }

  ghost predicate PinsFit(w: World) {
    forall p <- w.pins :: PinOf(p.pinned, w.db.books, p.tenant, true)
  }

  ghost predicate ExportsFit(w: World) {
    forall x <- w.exports :: x.snapshot < |w.db.snapshots|
  }

  ghost predicate WorldInv(w: World) {
    && Inv(w.db)
    && WorkersFit(w)
    && PinsFit(w)
    && ExportsFit(w)
    && AllTraced(w.db)
    && Ended(w.db.events, w.db.jobs)
  }

  // ---- the tables ------------------------------------------------------------------------------

  ghost predicate DbKept(a: Tables, b: Tables) {
    Inv(a) && Inv(b) && Evolves(a, b) && MaskKept(a, b)
  }

  lemma NothingChanges(t: Tables)
    requires Inv(t)
    ensures DbKept(t, t)
  {
    hide Inv, Protected;
    EvolvesReflexive(t);
  }

  lemma AdvanceKeeps(w: World)
    requires Inv(w.db)
    ensures DbKept(w.db, Advance(w).db)
    ensures forall k <- Advance(w).db.jobs :: k.createdAt < Advance(w).db.clock
  {
    hide Inv, Evolves, MaskKept;
    JobsAreOlder(w.db);
    ClockKeeps(w.db, w.db.clock + 1);
  }

  lemma JobsAreOlder(t: Tables)
    requires Inv(t)
    ensures forall k <- t.jobs :: k.createdAt <= t.clock
  {
    hide WellFormed, Load, AllLeased, AllAttributed, AllPinned, BooksWellFormed;
  }

  lemma DoKeepsTables(w: World, step: Step)
    requires Inv(w.db) && PinsFit(w)
    requires forall k <- w.db.jobs :: k.createdAt < w.db.clock
    ensures DbKept(w.db, Do(w, step).db)
  {
    hide Inv, Evolves, MaskKept, PinOf, T.EnsureInitialized, T.Register, T.Publish, T.Fail, T.Claim;
    NothingChanges(w.db);
    match step
    case Tick(d) => ClockKeeps(w.db, w.db.clock + d);
    case Initialize(tenant) => InitializeKeeps(w.db, tenant);
    case AddRule(tenant, id, p) => AddRuleKeeps(w.db, tenant, id, p);
    case ReviseRule(tenant, id, p) => ReviseRuleKeeps(w.db, tenant, id, p);
    case CreateScan(snapshot, sel) => CreateScanKeeps(w.db, snapshot, sel);
    case Claim(owner, seconds, locked) => ClaimKeeps(w.db, owner, seconds, locked);
    case Heartbeat(i, seconds) => if i < |w.workers| { HeartbeatKeeps(w.db, w.workers[i].lease, seconds); }
    case Publish(i, found) => if i < |w.workers| { PublishKeeps(w.db, w.workers[i].lease, found); }
    case Fail(i, code) => if i < |w.workers| { FailKeeps(w.db, w.workers[i].lease, code); }
    case UpdateStatus(f, expected, confirm, reviewer, reason) =>
      UpdateStatusKeeps(w.db, f, expected, confirm, reviewer, reason);
    case Classify(asset, snapshot, version, changes) => ClassifyKeeps(w.db, asset, snapshot, version, changes);
    case SetPolicy(asset, version, categories) => SetPolicyKeeps(w.db, asset, version, categories);
    case PinForImport(tenant) => InitializeKeeps(w.db, tenant);
    case Register(tenant, target, columns, importScan, pin, found) =>
      if pin.None? {
        RegisterKeepsAll(w.db, tenant, target, columns, importScan, None, found);
      } else if pin.value < |w.pins| && w.pins[pin.value].tenant == tenant {
        RegisterKeepsAll(w.db, tenant, target, columns, importScan, Some(w.pins[pin.value].pinned), found);
      }
    case _ =>
  }

  // ---- workers, pins, exports ------------------------------------------------------------------

  lemma LeaseFitsLater(a: Tables, b: Tables, h: Held)
    requires LeaseFits(a, h) && Evolves(a, b)
    ensures LeaseFits(b, h)
  {
    hide WellFormed, Load;
    assert JobMoves(a.jobs[h.lease.scan], b.jobs[h.lease.scan]);
  }

  /** One worker moves on while its lease stays the same. */
  lemma WorkerMoves(w: World, db: Tables, i: nat, h: Held)
    requires WorkersFit(w) && Evolves(w.db, db) && i < |w.workers| && h.lease == w.workers[i].lease && LeaseFits(db, h)
    ensures WorkersFit(w.(db := db, workers := w.workers[i := h]))
  {
    hide Evolves;
    var v := w.(db := db, workers := w.workers[i := h]);
    forall k | 0 <= k < |v.workers|
      ensures LeaseFits(db, v.workers[k])
    {
      if k != i {
        LeaseFitsLater(w.db, db, w.workers[k]);
      }
    }
  }

  lemma WorkersWait(w: World, db: Tables)
    requires WorkersFit(w) && Evolves(w.db, db)
    ensures WorkersFit(w.(db := db))
  {
    hide Evolves, LeaseFits;
    forall h | h in w.workers
      ensures LeaseFits(db, h)
    {
      LeaseFitsLater(w.db, db, h);
    }
  }

  lemma ClaimKeepsWorkers(w: World, owner: string, seconds: nat, locked: set<nat>)
    requires WorkersFit(w) && Inv(w.db) && Evolves(w.db, DoClaim(w, owner, seconds, locked).db)
    ensures WorkersFit(DoClaim(w, owner, seconds, locked))
  {
    hide WellFormed, Load, Evolves;
    var v := DoClaim(w, owner, seconds, locked);
    var (db, lease) := T.Claim(w.db, owner, seconds, locked);
    if lease.Some? {
      WorkersWait(w, db);
      assert Leased(w.db.jobs[lease.value.scan]);
      forall i | 0 <= i < |w.workers| && w.workers[i].lease.scan == lease.value.scan
        ensures w.workers[i].lease.generation != lease.value.generation
      {
        assert LeaseFits(w.db, w.workers[i]);
      }
    }
  }

  lemma PublishKeepsWorkers(w: World, i: nat, found: seq<Hit>)
    requires WorkersFit(w) && Inv(w.db) && Evolves(w.db, DoPublish(w, i, found).db)
    ensures WorkersFit(DoPublish(w, i, found))
  {
    hide WellFormed, Load, Evolves, T.WriteFindings;
    if i < |w.workers| && w.workers[i].phase.Scanning? {
      var (db, outcome) := T.Publish(w.db, w.workers[i].lease, found);
      var h := w.workers[i];
      assert LeaseFits(w.db, h);
      match outcome
      case Published => WorkerMoves(w, db, i, h.(phase := Finished, published := true));
      case LeaseLost => WorkerMoves(w, db, i, h.(phase := Finished));
      case Rejected =>
    }
  }

  lemma HeldFits(w: World, i: nat)
    requires WorkersFit(w) && i < |w.workers|
    ensures LeaseFits(w.db, w.workers[i])
  {
  }

  /** Scans starting, giving up and dying: one worker moves on under the same lease. */
  lemma WorkerStepKeeps(w: World, step: Step)
    requires WorkersFit(w) && Linked(w.db) && Evolves(w.db, Do(w, step).db)
    requires (step.BeginScan? || step.Fail? || step.Crash?) && step.worker < |w.workers|
    ensures WorkersFit(Do(w, step))
  {
    hide WorkersFit, Evolves, Linked, T.Fail;
    var db, i := Do(w, step).db, step.worker;
    var h := w.workers[i];
    HeldFits(w, i);
    LeaseFitsLater(w.db, db, h);
    if step.BeginScan? && h.phase.Claimed? && h.lease.attempt <= T.MAX_ATTEMPTS {
      WorkerMoves(w, db, i, h.(phase := Scanning, scanned := true));
    } else if (step.Fail? && MayFail(h, step.code)) || step.Crash? {
      WorkerMoves(w, db, i, h.(phase := Finished));
    }
  }

  lemma SameWorkers(w: World, v: World)
    requires WorkersFit(w.(db := v.db)) && v.workers == w.workers
    ensures WorkersFit(v)
  {
    hide LeaseFits, DistinctLeases;
  }

  lemma OthersKeepWorkers(w: World, step: Step)
    requires Linked(w.db) && !step.Claim? && !step.Publish?
    requires (step.BeginScan? || step.Fail? || step.Crash?) ==> step.worker >= |w.workers|
    ensures Do(w, step).workers == w.workers
  {
    hide Linked;
  }

  lemma DoKeepsWorkers(w: World, step: Step)
    requires WorkersFit(w) && Inv(w.db) && Evolves(w.db, Do(w, step).db)
    ensures WorkersFit(Do(w, step))
  {
    InvLinked(w.db);
    hide WorkersFit, Inv, Evolves, Linked, Do;
    if step.Claim? {
      ClaimStepKeepsWorkers(w, step);
    } else if step.Publish? {
      PublishStepKeepsWorkers(w, step);
    } else if (step.BeginScan? || step.Fail? || step.Crash?) && step.worker < |w.workers| {
      WorkerStepKeeps(w, step);
    } else {
      WorkersWait(w, Do(w, step).db);
      OthersKeepWorkers(w, step);
      SameWorkers(w, Do(w, step));
    }
  }

  lemma ClaimStepKeepsWorkers(w: World, step: Step)
    requires step.Claim? && WorkersFit(w) && Inv(w.db) && Evolves(w.db, Do(w, step).db)
    ensures WorkersFit(Do(w, step))
  {
    hide WorkersFit, Inv, Evolves, DoClaim;
    ClaimKeepsWorkers(w, step.owner, step.lease, step.locked);
  }

  lemma PublishStepKeepsWorkers(w: World, step: Step)
    requires step.Publish? && WorkersFit(w) && Inv(w.db) && Evolves(w.db, Do(w, step).db)
    ensures WorkersFit(Do(w, step))
  {
    hide WorkersFit, Inv, Evolves, DoPublish;
    PublishKeepsWorkers(w, step.worker, step.found);
  }

  lemma DoKeepsPins(w: World, step: Step)
    requires Linked(w.db) && PinsFit(w) && Evolves(w.db, Do(w, step).db)
    ensures PinsFit(Do(w, step))
  {
    var v := Do(w, step);
    forall p | p in w.pins
      ensures PinOf(p.pinned, v.db.books, p.tenant, true)
    {
      assert PinOf(p.pinned, w.db.books, p.tenant, true);
      PinLasts(p.pinned, w.db, v.db, p.tenant);
    }
    if step.PinForImport? {
      assert v.pins[|w.pins|].pinned == Load(v.db.books[step.tenant]);
    } else {
      assert v.pins == w.pins;
    }
  }

  lemma PinLasts(p: Pinned, a: Tables, b: Tables, tenant: string)
    requires PinOf(p, a.books, tenant, true) && Evolves(a, b)
    ensures PinOf(p, b.books, tenant, true)
  {
    hide Load, WellFormed;
  }

  /** Exports keep what they resolved; only their phase moves, and only while streaming. */
  ghost predicate ExportsMove(a: seq<Export>, b: seq<Export>) {
    && |a| <= |b|
    && forall e :: 0 <= e < |a| ==>
         b[e] == a[e].(phase := b[e].phase) && (!a[e].phase.Streaming? ==> b[e] == a[e])
  }

  lemma DoKeepsExports(w: World, step: Step)
    requires ExportsFit(w) && Linked(w.db) && Evolves(w.db, Do(w, step).db)
    ensures ExportsFit(Do(w, step)) && ExportsMove(w.exports, Do(w, step).exports)
  {
    hide Protected, WellFormed, Load;
    var v := Do(w, step);
    if step.FinishExport? {
      assert v.db == w.db;
    } else if step.BeginExport? {
      assert v.db == w.db;
    } else {
      assert v.exports == w.exports;
    }
  }

  // ---- history ---------------------------------------------------------------------------------

  /** Steps that neither publish nor review leave every decision alone. */
  lemma DecisionsStay(w: World, step: Step)
    requires Linked(w.db) && !step.Publish? && !step.UpdateStatus?
    ensures var u := Do(w, step).db;
            && |w.db.findings| <= |u.findings|
            && (forall i :: 0 <= i < |w.db.findings| ==> u.findings[i] == w.db.findings[i])
            && (forall i :: |w.db.findings| <= i < |u.findings| ==> u.findings[i].status.Detected?)
  {
    hide WellFormed, Load, T.FirstOfEach;
  }

  lemma DoKeepsTraced(w: World, step: Step)
    requires Inv(w.db) && AllTraced(w.db) && Evolves(w.db, Do(w, step).db)
    ensures AllTraced(Do(w, step).db)
  {
    InvLinked(w.db);
    hide Inv, Evolves, AllTraced, Linked, OnlyLastActive, T.Publish, T.UpdateStatus;
    if step.Publish? {
      if step.worker < |w.workers| { PublishKeepsTraced(w.db, w.workers[step.worker].lease, step.found); }
    } else if step.UpdateStatus? {
      UpdateStatusKeepsTraced(w.db, step.finding, step.expected, step.confirm, step.reviewer, step.reason);
    } else {
      hide Do;
      JobsOrdered(w.db);
      DecisionsStay(w, step);
      DecisionsUntouched(w.db, Do(w, step).db);
    }
  }

  lemma JobsOrdered(t: Tables)
    requires Inv(t)
    ensures OnlyLastActive(t.jobs)
  {
  }

  lemma {:induction false} ChangeEventsEndNothing(asset: nat, declared: map<string, Category>, changes: seq<T.Change>)
    ensures forall e <- T.ChangeEvents(asset, declared, changes) :: !EndsScan(e)
    decreases |changes|
  {
    if |changes| > 0 {
      ChangeEventsEndNothing(asset, T.Declare(declared, [changes[0]]), changes[1..]);
    }
  }

  /** A transaction that leaves the jobs alone and logs no scan ending. */
  lemma JobsAlone(t: Tables, u: Tables)
    requires u.jobs == t.jobs && t.events <= u.events
    requires forall e <- u.events[|t.events|..] :: !EndsScan(e)
    ensures NoScanEnds(t, u)
  {
  }

  lemma LeasingEndsNothing(t: Tables, u: Tables, n: nat)
    requires n < |t.jobs| && |u.jobs| == |t.jobs| && u.jobs == t.jobs[n := u.jobs[n]] && u.events == t.events
    requires Active(t.jobs[n]) && Active(u.jobs[n])
    ensures NoScanEnds(t, u)
  {
    assert u.events[|t.events|..] == [];
  }

  lemma ArrivalEndsNothing(t: Tables, u: Tables, j: Job)
    requires u.jobs == t.jobs + [j] && u.events == t.events && !j.state.Failed? && j.generation == 0
    ensures NoScanEnds(t, u)
  {
    assert u.events[|t.events|..] == [];
  }

  lemma LeaseStepsEndNothing(w: World, step: Step)
    requires Linked(w.db) && (step.Claim? || step.Heartbeat?)
    ensures NoScanEnds(w.db, Do(w, step).db)
  {
    hide NoScanEnds, Linked, Load;
    var t := w.db;
    var u := Do(w, step).db;
    match step
    case Claim(owner, seconds, locked) =>
      var n := T.Oldest(t.jobs, t.clock, locked);
      if n.Some? { LeasingEndsNothing(t, u, n.value); } else { JobsAlone(t, u); }
    case Heartbeat(i, seconds) =>
      if i < |w.workers| && !w.workers[i].phase.Finished? && T.Fenced(t, w.workers[i].lease) {
        LeasingEndsNothing(t, u, w.workers[i].lease.scan);
      } else { JobsAlone(t, u); }
  }

  lemma ArrivalsEndNothing(w: World, step: Step)
    requires Linked(w.db) && (step.CreateScan? || step.Register?)
    ensures NoScanEnds(w.db, Do(w, step).db)
  {
    hide NoScanEnds, Linked, SeedBook, Load, T.FirstOfEach, T.PinFor;
    var t := w.db;
    var u := Do(w, step).db;
    if |u.jobs| > |t.jobs| { ArrivalEndsNothing(t, u, u.jobs[|t.jobs|]); } else { JobsAlone(t, u); }
  }

  lemma NoScanEndsHere(w: World, step: Step)
    requires Linked(w.db) && !step.Publish? && !step.Fail?
    ensures NoScanEnds(w.db, Do(w, step).db)
  {
    hide NoScanEnds, Linked, SeedBook, CreateRule, UpdateRule, Load;
    if step.Claim? || step.Heartbeat? {
      LeaseStepsEndNothing(w, step);
    } else if step.CreateScan? || step.Register? {
      ArrivalsEndNothing(w, step);
    } else {
      if step.Classify? && step.asset < |w.db.assets| {
        ChangeEventsEndNothing(step.asset, w.db.assets[step.asset].declared, step.changes);
      }
      JobsAlone(w.db, Do(w, step).db);
    }
  }

  lemma DoKeepsEnded(w: World, step: Step)
    requires Inv(w.db) && Ended(w.db.events, w.db.jobs)
    ensures Ended(Do(w, step).db.events, Do(w, step).db.jobs)
  {
    InvLinked(w.db);
    hide Inv, Ended, NoScanEnds, Linked, T.Publish, T.Fail;
    if step.Publish? {
      if step.worker < |w.workers| { PublishKeepsEnded(w.db, w.workers[step.worker].lease, step.found); }
    } else if step.Fail? {
      if step.worker < |w.workers| { FailKeepsEnded(w.db, w.workers[step.worker].lease, step.code); }
    } else {
      hide Do;
      NoScanEndsHere(w, step);
      QuietStepKeepsEnded(w.db, Do(w, step).db);
    }
  }

  // ---- steps and runs --------------------------------------------------------------------------

  lemma DoKeeps(w: World, step: Step)
    requires WorldInv(w) && forall k <- w.db.jobs :: k.createdAt < w.db.clock
    ensures WorldInv(Do(w, step)) && DbKept(w.db, Do(w, step).db) && ExportsMove(w.exports, Do(w, step).exports)
  {
    DoKeepsTables(w, step);
    hide Inv, WorkersFit, PinsFit, ExportsFit, AllTraced, Ended, Evolves, MaskKept, Do;
    InvLinked(w.db);
    DoKeepsWorkers(w, step);
    DoKeepsPins(w, step);
    DoKeepsExports(w, step);
    DoKeepsTraced(w, step);
    DoKeepsEnded(w, step);
  }

  lemma AdvanceKeepsWorld(w: World)
    requires WorldInv(w)
    ensures WorldInv(Advance(w)) && DbKept(w.db, Advance(w).db)
    ensures forall k <- Advance(w).db.jobs :: k.createdAt < Advance(w).db.clock
  {
    AdvanceKeeps(w);
    hide Inv, WorkersFit, PinsFit, ExportsFit, AllTraced, Ended, Evolves, MaskKept, LeaseFits;
    InvLinked(w.db);
    assert Advance(w) == Do(w, Tick(1));
    DoKeepsWorkers(w, Tick(1));
    DoKeepsPins(w, Tick(1));
    DoKeepsExports(w, Tick(1));
    DoKeepsTraced(w, Tick(1));
    DoKeepsEnded(w, Tick(1));
  }

  lemma NextKeeps(w: World, step: Step)
    requires WorldInv(w)
    ensures WorldInv(Next(w, step)) && DbKept(w.db, Next(w, step).db) && ExportsMove(w.exports, Next(w, step).exports)
  {
    var v := Advance(w);
    AdvanceKeepsWorld(w);
    DoKeeps(v, step);
    InvLinked(w.db);
    InvLinked(v.db);
    InvLinked(Do(v, step).db);
    hide Inv, Evolves, MaskKept, WorkersFit, PinsFit, ExportsFit, AllTraced, Ended, Do;
    EvolvesTransitive(w.db, v.db, Do(v, step).db);
    MaskKeptThrough(w.db, v.db, Do(v, step).db);
  }

  lemma StartFits()
    ensures WorldInv(START)
  {
  }

  /** The state a run ends in. */
  ghost function Run(steps: seq<Step>): (w: World)
    ensures WorldInv(w) && Linked(w.db)
  {
    if |steps| == 0 then
      StartFits();
      START
    else
      var before := Run(steps[..|steps| - 1]);
      NextKeeps(before, steps[|steps| - 1]);
      InvLinked(Next(before, steps[|steps| - 1]).db);
      Next(before, steps[|steps| - 1])
  }

  lemma RunExtend(steps: seq<Step>, step: Step)
    ensures Run(steps + [step]) == Next(Run(steps), step)
  {
    hide Next, WorldInv, Linked;
    assert (steps + [step])[..|steps|] == steps;
  }

  lemma RunInv(steps: seq<Step>)
    ensures Inv(Run(steps).db)
  {
    assert WorldInv(Run(steps));
  }

  lemma {:induction false} RunEvolves(before: seq<Step>, more: seq<Step>)
    ensures DbKept(Run(before).db, Run(before + more).db)
    ensures ExportsMove(Run(before).exports, Run(before + more).exports)
    decreases |more|
  {
    hide WorldInv, Run, Next, Inv, Evolves, MaskKept, Linked;
    if |more| == 0 {
      assert before + more == before;
      RunInv(before);
      NothingChanges(Run(before).db);
    } else {
      var front, last := more[..|more| - 1], more[|more| - 1];
      RunEvolves(before, front);
      var v := Run(before + front);
      assert before + more == (before + front) + [last];
      RunExtend(before + front, last);
      NextKeeps(v, last);
      EvolvesTransitive(Run(before).db, v.db, Run(before + more).db);
      MaskKeptThrough(Run(before).db, v.db, Run(before + more).db);
      assert ExportsMove(v.exports, Run(before + more).exports);
    }
  }
}
