/** What holds of every run of the privacy system. */
module PrivacyTheorems {
  import opened Wrappers
  import opened DetectorRules
  import opened PrivacyTables
  import T = PrivacyTransactions
  import opened PrivacySystem
  import opened PrivacyInvariants
  import opened PrivacyHistory
  import opened PrivacyRuns

  // ---- two counters determine the mask ---------------------------------------------------------

  /** At any two moments of a run with the same asset revision and config version, a snapshot has the same mask. */
  lemma MaskIsDetermined(before: seq<Step>, more: seq<Step>, s: nat)
    requires s < |Run(before).db.snapshots|
    ensures var a, b := Run(before).db, Run(before + more).db;
            && s < |b.snapshots|
            && (PolicyVersion(a, s) == PolicyVersion(b, s)
                && ConfigVersion(a, TenantOf(a, s)) == ConfigVersion(b, TenantOf(b, s)) ==>
                  Protected(a, s) == Protected(b, s))
  {
    hide WorldInv, Run, Protected;
    RunEvolves(before, more);
  }

  // ---- freshness -------------------------------------------------------------------------------

  /**
   Fail closed: if a snapshot that has an APPLY job shows any column in clear, its newest APPLY job is complete, was
   pinned to exactly the rules enabled now, found nothing in that column that is not dismissed, and no confirmed
   finding of any scan or sensitive declaration covers the column.
   */
  lemma UnmaskedMeansFresh(steps: seq<Step>, s: nat, column: string)
    requires s < |Run(steps).db.snapshots| && column in Run(steps).db.snapshots[s].columns
    requires column !in Protected(Run(steps).db, s)
    requires exists j <- Run(steps).db.jobs :: Candidate(j, s, false)
    ensures var t := Run(steps).db;
            var newest := Newest(t.jobs, s, false);
            && newest.Some? && t.jobs[newest.value].state.Complete?
            && (forall i :: newest.value < i < |t.jobs| ==> !Candidate(t.jobs[i], s, false))
            && TenantOf(t, s) in t.books
            && var book := t.books[TenantOf(t, s)];
               && t.jobs[newest.value].pinned == Load(book)
               && multiset(t.jobs[newest.value].pinned.rules) == multiset(LatestEnabled(book.rows))
               && |t.jobs[newest.value].pinned.rules| <= MAX_ENABLED_RULES
    ensures var t := Run(steps).db;
            && (forall f <- t.findings :: f.snapshot == s && f.hit.column == column ==>
                  !f.status.Confirmed? && (f.scan == Newest(t.jobs, s, false) ==> f.status.Dismissed?))
            && !DeclaredSensitive(t, s, column)
  {
    var t := Run(steps).db;
    RunInv(steps);
    hide WorldInv, Run, Load, WellFormed;
    NewestIsLast(t.jobs, s, false);
    var n := Newest(t.jobs, s, false).value;
    assert Verified(t, s) && JobPinned(t, t.jobs[n]);
    var book := t.books[TenantOf(t, s)];
    assert WellFormed(book);
    NewestCompleteIsNewest(t, s);
    LoadIsLatestEnabled(book);
    forall f | f in t.findings && f.snapshot == s && f.hit.column == column
      ensures !f.status.Confirmed? && (f.scan == Some(n) ==> f.status.Dismissed?)
    {
      assert !Flags(t, f, s, column);
    }
  }

  lemma NewestCompleteIsNewest(t: Tables, s: nat)
    requires Chronological(t) && Newest(t.jobs, s, false).Some?
    requires t.jobs[Newest(t.jobs, s, false).value].state.Complete?
    ensures Newest(t.jobs, s, true) == Newest(t.jobs, s, false)
  {
    NewestIsLast(t.jobs, s, false);
    NewestIsLast(t.jobs, s, true);
    var n := Newest(t.jobs, s, false).value;
    assert Candidate(t.jobs[n], s, true);
    var m := Newest(t.jobs, s, true).value;
    assert Candidate(t.jobs[m], s, false);
  }

  // ---- review decisions ------------------------------------------------------------------------

  /**
   A reviewed finding, dismissed or confirmed, goes back through consecutive complete APPLY scans that all found the
   same rule revision in the same column and path, to one on which the audit log shows that very decision: the same
   status by the same reviewer, for the same reason, at the same time.
   */
  lemma DecisionsTraceToPeople(steps: seq<Step>, f: nat)
    requires f < |Run(steps).db.findings| && !Run(steps).db.findings[f].status.Detected?
    ensures var t := Run(steps).db;
            exists chain :: DecisionChain(t, chain, T.DecisionOf(t.findings[f])) && chain[0] == f
  {
    var t := Run(steps).db;
    assert AllTraced(t);
    TracedHasChain(t, f, T.DecisionOf(t.findings[f]));
  }

  /** At most one scan of a snapshot and purpose is active, and it is the last one created. */
  lemma OneActiveScan(steps: seq<Step>, i: nat, j: nat)
    requires var jobs := Run(steps).db.jobs;
             && i < |jobs| && j < |jobs| && Active(jobs[i])
             && jobs[i].snapshot == jobs[j].snapshot && jobs[i].purpose == jobs[j].purpose
    ensures j <= i && (Active(Run(steps).db.jobs[j]) ==> i == j)
  {
    RunInv(steps);
    hide WorldInv, Run;
  }

  /** Reviews are the only way a decision moves, and each one is on the audit log. */
  ghost predicate ConfirmedUnlessDismissed(a: Tables, b: Tables, f: nat)
    requires f < |a.findings| <= |b.findings|
  {
    b.findings[f].status.Confirmed?
    || exists i :: |a.events| <= i < |b.events| && b.events[i].StatusChanged? && b.events[i].finding == f
                   && b.events[i].before.Confirmed? && b.events[i].after.Dismissed?
  }

  lemma ReviewKeepsConfirmed(t: Tables, finding: nat, expected: Status, confirm: bool, reviewer: string, reason: string,
                             f: nat)
    requires Linked(t) && f < |t.findings| && t.findings[f].status.Confirmed?
    ensures var u := T.UpdateStatus(t, finding, expected, confirm, reviewer, reason).0;
            |t.findings| <= |u.findings| && ConfirmedUnlessDismissed(t, u, f)
  {
    hide Linked;
    var u := T.UpdateStatus(t, finding, expected, confirm, reviewer, reason).0;
    if finding == f && !confirm && expected.Confirmed? {
      assert u.events[|t.events|] == StatusChanged(f, Confirmed, Dismissed, Review(reviewer, reason, t.clock));
    }
  }

  lemma StepKeepsConfirmed(w: World, step: Step, f: nat)
    requires WorldInv(w) && f < |w.db.findings| && w.db.findings[f].status.Confirmed?
    ensures |w.db.findings| <= |Next(w, step).db.findings|
    ensures ConfirmedUnlessDismissed(w.db, Next(w, step).db, f)
  {
    var v := Advance(w);
    NextKeeps(w, step);
    AdvanceKeepsWorld(w);
    EvolvesGrows(w.db, Next(w, step).db);
    InvLinked(v.db);
    hide WorldInv, Evolves, Inv, MaskKept, Linked, ConfirmedUnlessDismissed, T.Publish, T.UpdateStatus;
    if step.UpdateStatus? {
      ReviewKeepsConfirmed(v.db, step.finding, step.expected, step.confirm, step.reviewer, step.reason, f);
      SameFindingsSameVerdict(w.db, v.db, Next(w, step).db, f);
    } else if step.Publish? {
      PublishAppends(v.db, v.workers, step);
      StillConfirmed(w.db, Next(w, step).db, f);
    } else {
      DecisionsStay(v, step);
      StillConfirmed(w.db, Next(w, step).db, f);
    }
  }

  lemma StillConfirmed(a: Tables, b: Tables, f: nat)
    requires f < |a.findings| <= |b.findings| && a.findings[f].status.Confirmed? && b.findings[f] == a.findings[f]
    ensures ConfirmedUnlessDismissed(a, b, f)
  {
  }

  lemma SameFindingsSameVerdict(a: Tables, v: Tables, b: Tables, f: nat)
    requires f < |a.findings| == |v.findings| <= |b.findings| && a.events == v.events
             && ConfirmedUnlessDismissed(v, b, f)
    ensures ConfirmedUnlessDismissed(a, b, f)
  {
  }

  lemma PublishAppends(t: Tables, workers: seq<Held>, step: Step)
    requires Inv(t) && Linked(t) && step.Publish?
    ensures step.worker < |workers| ==> t.findings <= T.Publish(t, workers[step.worker].lease, step.found).0.findings
  {
    if step.worker < |workers| {
      var l := workers[step.worker].lease;
      var (u, outcome) := T.Publish(t, l, step.found);
      if outcome.Published? && t.jobs[l.scan].purpose.Apply? {
        PublishedRows(t, l, step.found);
      } else {
        hide Inv, Linked, WellFormed, Load, T.WriteFindings;
        assert u.findings == t.findings;
      }
    }
  }

  lemma ConfirmedThrough(a: Tables, b: Tables, c: Tables, f: nat)
    requires f < |a.findings| <= |b.findings| <= |c.findings| && a.events <= b.events <= c.events
    requires ConfirmedUnlessDismissed(a, b, f)
    requires b.findings[f].status.Confirmed? ==> ConfirmedUnlessDismissed(b, c, f)
    ensures ConfirmedUnlessDismissed(a, c, f)
  {
    if !b.findings[f].status.Confirmed? {
      var i :| |a.events| <= i < |b.events| && b.events[i].StatusChanged? && b.events[i].finding == f
               && b.events[i].before.Confirmed? && b.events[i].after.Dismissed?;
      assert c.events[i] == b.events[i];
    }
  }

  lemma {:induction false} ConfirmedLasts(before: seq<Step>, more: seq<Step>, f: nat)
    requires f < |Run(before).db.findings| && Run(before).db.findings[f].status.Confirmed?
    ensures |Run(before).db.findings| <= |Run(before + more).db.findings|
    ensures Run(before).db.events <= Run(before + more).db.events
    ensures ConfirmedUnlessDismissed(Run(before).db, Run(before + more).db, f)
    decreases |more|
  {
    hide WorldInv, Next, ConfirmedUnlessDismissed, Evolves, Inv, Linked, MaskKept;
    if |more| == 0 {
      assert before + more == before;
      StillConfirmed(Run(before).db, Run(before).db, f);
    } else {
      var front, last := more[..|more| - 1], more[|more| - 1];
      ConfirmedLasts(before, front, f);
      assert before + more == (before + front) + [last];
      RunExtend(before + front, last);
      RunEvolves(before + front, [last]);
      EvolvesGrows(Run(before + front).db, Run(before + more).db);
      hide Run;
      if Run(before + front).db.findings[f].status.Confirmed? {
        StepKeepsConfirmed(Run(before + front), last, f);
      }
      ConfirmedThrough(Run(before).db, Run(before + front).db, Run(before + more).db, f);
    }
  }

  lemma EvolvesGrows(a: Tables, b: Tables)
    requires Evolves(a, b)
    ensures |a.findings| <= |b.findings| && a.events <= b.events && a.snapshots <= b.snapshots
    ensures forall i :: 0 <= i < |a.findings| ==> FindingMoves(a.findings[i], b.findings[i])
  {
  }

  /**
   Once a person has confirmed a finding, its column stays masked through rescans, rule changes and everything else,
   until the audit log shows a person dismissing that finding.
   */
  lemma ConfirmedStaysMasked(before: seq<Step>, more: seq<Step>, f: nat)
    requires f < |Run(before).db.findings| && Run(before).db.findings[f].status.Confirmed?
    ensures var a, b := Run(before).db, Run(before + more).db;
            var found := a.findings[f];
            && found.snapshot < |b.snapshots| && |a.events| <= |b.events|
            && (found.hit.column in b.snapshots[found.snapshot].columns
                && found.hit.column !in Protected(b, found.snapshot) ==>
                  exists i :: |a.events| <= i < |b.events| && b.events[i].StatusChanged? && b.events[i].finding == f
                              && b.events[i].before.Confirmed? && b.events[i].after.Dismissed?)
  {
    hide WorldInv, Run, Evolves, Verified, DeclaredSensitive, Newest, MaskKept, Inv;
    var a, b := Run(before).db, Run(before + more).db;
    ConfirmedLasts(before, more, f);
    RunEvolves(before, more);
    EvolvesGrows(a, b);
    RunInv(before);
    InvLinked(a);
    assert a.findings[f] in a.findings && a.findings[f].snapshot < |a.snapshots|;
    assert FindingMoves(a.findings[f], b.findings[f]);
    if b.findings[f].status.Confirmed? {
      assert b.findings[f] in b.findings;
      assert Flags(b, b.findings[f], a.findings[f].snapshot, a.findings[f].hit.column);
    }
  }

  // ---- leases ----------------------------------------------------------------------------------

  lemma {:induction false} AtMostOne(s: set<nat>)
    requires forall x <- s, y <- s :: x == y
    ensures |s| <= 1
  {
    if s != {} {
      var x :| x in s;
      assert s == {x};
    }
  }

  ghost function ScanningLeases(w: World, scan: nat): set<nat> {
    set i | 0 <= i < |w.workers| && w.workers[i].lease.scan == scan && w.workers[i].scanned
  }

  ghost function AtAttempt(w: World, scan: nat, k: nat): set<nat> {
    set i <- ScanningLeases(w, scan) | w.workers[i].lease.attempt == k
  }

  lemma LeasesByAttempt(w: World, scan: nat, k: nat)
    requires WorkersFit(w)
    ensures |AtAttempt(w, scan, k)| <= 1
  {
    var s := AtAttempt(w, scan, k);
    forall x, y | x in s && y in s
      ensures x == y
    {
      assert LeaseFits(w.db, w.workers[x]) && LeaseFits(w.db, w.workers[y]);
    }
    AtMostOne(s);
  }

  lemma ScansByAttempt(w: World, scan: nat)
    requires WorkersFit(w)
    ensures ScanningLeases(w, scan) == AtAttempt(w, scan, 1) + AtAttempt(w, scan, 2) + AtAttempt(w, scan, 3)
  {
    hide DistinctLeases;
    forall i | i in ScanningLeases(w, scan)
      ensures 1 <= w.workers[i].lease.attempt <= 3
    {
      assert LeaseFits(w.db, w.workers[i]);
    }
  }

  /** However often a job is claimed, at most three leases of it ever get to scan. */
  lemma AtMostThreeScans(steps: seq<Step>, scan: nat)
    ensures |ScanningLeases(Run(steps), scan)| <= T.MAX_ATTEMPTS
  {
    var w := Run(steps);
    assert WorkersFit(w);
    hide WorldInv, Run, WorkersFit, AtAttempt, ScanningLeases;
    ScansByAttempt(w, scan);
    LeasesByAttempt(w, scan, 1);
    LeasesByAttempt(w, scan, 2);
    LeasesByAttempt(w, scan, 3);
  }

  /** A scan is published by at most one lease, which is the last one handed out. */
  lemma PublishedAtMostOnce(steps: seq<Step>, i: nat, j: nat)
    requires var w := Run(steps);
             && i < |w.workers| && j < |w.workers| && w.workers[i].published && w.workers[j].published
             && w.workers[i].lease.scan == w.workers[j].lease.scan
    ensures i == j
    ensures var w := Run(steps); var scan := w.workers[i].lease.scan;
            scan < |w.db.jobs| && w.workers[i].lease.generation == w.db.jobs[scan].generation
  {
    var w := Run(steps);
    assert WorkersFit(w);
    assert LeaseFits(w.db, w.workers[i]) && LeaseFits(w.db, w.workers[j]);
  }

  /** The one entry of the audit log that says how a scan ended. */
  ghost predicate TheEnding(t: Tables, scan: nat, i: nat) {
    && i < |t.events| && EndsScan(t.events[i]) && t.events[i].scan == scan
    && forall k :: 0 <= k < |t.events| && EndsScan(t.events[k]) && t.events[k].scan == scan ==> k == i
  }

  /** A failed scan has its one ending on the log, with its error code; so has one applied by a worker. */
  ghost predicate EndingLogged(t: Tables, scan: nat)
    requires scan < |t.jobs|
  {
    && (t.jobs[scan].state.Failed? ==>
          exists i: nat ::
                   TheEnding(t, scan, i) && t.events[i].ScanGaveUp? && t.jobs[scan].error == Some(t.events[i].code))
    && (AppliedByWorker(t.jobs[scan]) ==> exists i: nat :: TheEnding(t, scan, i) && t.events[i].ScanApplied?)
  }

  lemma EndingIsLogged(t: Tables, scan: nat)
    requires Ended(t.events, t.jobs) && scan < |t.jobs|
    ensures EndingLogged(t, scan)
  {
    if t.jobs[scan].state.Failed? {
      var e :| e in t.events && e.ScanGaveUp? && e.scan == scan;
      var i :| 0 <= i < |t.events| && t.events[i] == e;
      assert TheEnding(t, scan, i);
    }
    if AppliedByWorker(t.jobs[scan]) {
      var e :| e in t.events && e.ScanApplied? && e.scan == scan;
      var i :| 0 <= i < |t.events| && t.events[i] == e;
      assert TheEnding(t, scan, i);
    }
  }

  /** A complete or failed job never moves again, and the audit log says exactly once how a worker's scan ended. */
  lemma EndedJobsAreFinal(before: seq<Step>, more: seq<Step>, scan: nat)
    requires scan < |Run(before).db.jobs| && !Active(Run(before).db.jobs[scan])
    ensures var a, b := Run(before).db, Run(before + more).db;
            scan < |b.jobs| && b.jobs[scan] == a.jobs[scan] && EndingLogged(b, scan)
  {
    var a, b := Run(before).db, Run(before + more).db;
    RunEvolves(before, more);
    JobOnlyMoves(a, b, scan);
    assert Ended(b.events, b.jobs);
    hide WorldInv, Run, Evolves, Ended, Inv, MaskKept;
    EndingIsLogged(b, scan);
  }

  lemma JobOnlyMoves(a: Tables, b: Tables, scan: nat)
    requires Evolves(a, b) && scan < |a.jobs|
    ensures scan < |b.jobs| && JobMoves(a.jobs[scan], b.jobs[scan])
  {
  }

  lemma StepKeepsLeases(w: World, step: Step)
    requires WorldInv(w)
    ensures |w.workers| <= |Next(w, step).workers|
    ensures forall i :: 0 <= i < |w.workers| ==> Next(w, step).workers[i].lease == w.workers[i].lease
  {
    assert Linked(w.db);
    hide WorldInv;
  }

  lemma {:induction false} LeasesLast(before: seq<Step>, more: seq<Step>)
    ensures |Run(before).workers| <= |Run(before + more).workers|
    ensures forall i :: 0 <= i < |Run(before).workers| ==>
              Run(before + more).workers[i].lease == Run(before).workers[i].lease
    decreases |more|
  {
    hide WorldInv, Next;
    if |more| == 0 {
      assert before + more == before;
    } else {
      var front := more[..|more| - 1];
      LeasesLast(before, front);
      assert before + more == (before + front) + [more[|more| - 1]];
      RunExtend(before + front, more[|more| - 1]);
      StepKeepsLeases(Run(before + front), more[|more| - 1]);
    }
  }

  /**
   From the moment a later lease of its job is handed out, nothing a worker does with its lease changes the tables.
   */
  lemma SupersededLeaseIsMute(before: seq<Step>, more: seq<Step>, i: nat, step: Step)
    requires var w := Run(before);
             && i < |w.workers| && w.workers[i].lease.scan < |w.db.jobs|
             && w.workers[i].lease.generation < w.db.jobs[w.workers[i].lease.scan].generation
    requires (step.Heartbeat? || step.BeginScan? || step.Publish? || step.Fail? || step.Crash?) && step.worker == i
    ensures Next(Run(before + more), step).db == Advance(Run(before + more)).db
  {
    var a, b := Run(before), Run(before + more);
    LeasesLast(before, more);
    RunEvolves(before, more);
    JobOnlyMoves(a.db, b.db, a.workers[i].lease.scan);
    hide WorldInv, Run, Evolves, Inv, MaskKept;
    MuteStep(b, step);
  }

  lemma MuteStep(w: World, step: Step)
    requires Linked(w.db)
    requires step.Heartbeat? || step.BeginScan? || step.Publish? || step.Fail? || step.Crash?
    requires step.worker < |w.workers| && w.workers[step.worker].lease.scan < |w.db.jobs|
    requires w.workers[step.worker].lease.generation < w.db.jobs[w.workers[step.worker].lease.scan].generation
    ensures Next(w, step).db == Advance(w).db
  {
    hide T.WriteFindings, WellFormed, Load;
    assert !T.Fenced(Advance(w).db, w.workers[step.worker].lease);
  }

  // ---- masked exports --------------------------------------------------------------------------

  /**
   An export that began in state `a` and is rechecked in state `b` is released exactly when the policy version and the
   mask are what they were; then what it masked is what must be masked now. Whatever ran in between, it is released
   whenever neither the policy version nor the config version moved.
   */
  lemma ExportVerdict(before: seq<Step>, more: seq<Step>, s: nat)
    requires s < |Run(before).db.snapshots|
    ensures var a := Run(before + [BeginExport(s)]);
            var b := Run(before + [BeginExport(s)] + more);
            var e := |Run(before).exports|;
            && s < |a.db.snapshots| && s < |b.db.snapshots| && e < |b.exports|
            && (b.exports[e].phase.Streaming? ==>
                  var c := Next(b, FinishExport(e));
                  && e < |c.exports| && s < |c.db.snapshots| && Linked(c.db)
                  && (c.exports[e].phase.Released? <==>
                        PolicyVersion(a.db, s) == PolicyVersion(b.db, s) && Protected(a.db, s) == Protected(b.db, s))
                  && (c.exports[e].phase.Released? ==> c.exports[e].masked == Protected(c.db, s))
                  && (PolicyVersion(a.db, s) == PolicyVersion(b.db, s)
                      && ConfigVersion(a.db, TenantOf(a.db, s)) == ConfigVersion(b.db, TenantOf(b.db, s)) ==>
                        c.exports[e].phase.Released?))
  {
    var begun := before + [BeginExport(s)];
    var a, b := Run(begun), Run(begun + more);
    var e := |Run(before).exports|;
    RunExtend(before, BeginExport(s));
    BeginsExport(Run(before), s);
    RunEvolves(begun, more);
    MaskIsDetermined(begun, more, s);
    assert Linked(b.db);
    hide Run, WorldInv, Protected, Evolves;
    if b.exports[e].phase.Streaming? {
      FinishesExport(b, e);
    }
  }

  lemma BeginsExport(w: World, s: nat)
    requires WorldInv(w) && s < |w.db.snapshots|
    ensures var v := Next(w, BeginExport(s));
            && Linked(v.db) && s < |v.db.snapshots| && |v.exports| == |w.exports| + 1
            && v.exports[|w.exports|] == Export(s, PolicyVersion(v.db, s), Protected(v.db, s), Streaming)
  {
  }

  lemma TimeChangesNoMask(t: Tables, later: nat, s: nat)
    requires Linked(t) && s < |t.snapshots|
    ensures Linked(t.(clock := later))
    ensures Protected(t.(clock := later), s) == Protected(t, s)
            && PolicyVersion(t.(clock := later), s) == PolicyVersion(t, s)
  {
    ClockMask(t, later);
    hide Protected;
  }

  lemma FinishesExport(w: World, e: nat)
    requires Linked(w.db) && e < |w.exports| && w.exports[e].phase.Streaming?
             && w.exports[e].snapshot < |w.db.snapshots|
    ensures var v := Next(w, FinishExport(e));
            var x := w.exports[e];
            && Linked(v.db) && x.snapshot < |v.db.snapshots| && e < |v.exports|
            && v.exports[e] == x.(phase := v.exports[e].phase)
            && (v.exports[e].phase.Released? <==>
                  PolicyVersion(w.db, x.snapshot) == x.version && Protected(w.db, x.snapshot) == x.masked)
            && Protected(v.db, x.snapshot) == Protected(w.db, x.snapshot)
  {
    hide Protected, Linked, PolicyVersion;
    TimeChangesNoMask(w.db, w.db.clock + 1, w.exports[e].snapshot);
  }

  /** A clean import under the seeded rules, and then one more rule. */
  function CleanImport(tenant: string, column: string): seq<Step> {
    [PinForImport(tenant), Register(tenant, None, [column], Unavailable, Some(0), [])]
  }

  lemma PinStep(tenant: string)
    ensures Linked(START.db)
    ensures Next(START, PinForImport(tenant)) ==
              World(EMPTY.(clock := 1, books := map[tenant := SeedBook()]), [], [ImportPin(tenant, Load(SeedBook()))],
                    [])
  {
    hide SeedBook, Load;
  }

  lemma RegisterStep(w: World, tenant: string, column: string, pin: Pinned)
    requires w.db == EMPTY.(clock := 1, books := w.db.books) && w.pins == [ImportPin(tenant, pin)]
    ensures Linked(w.db)
    ensures Next(w, Register(tenant, None, [column], Unavailable, Some(0), [])).db ==
              Tables(2, w.db.books, [Asset(tenant, 0, map[], map[])], [Snapshot(0, [column], Unavailable)],
                     [Job(0, Apply, Complete, pin, 2, None, 0, 0, None)], [], [])
  {
  }

  lemma CleanImportRuns(tenant: string, column: string)
    ensures Run(CleanImport(tenant, column)).db ==
              Tables(2, map[tenant := SeedBook()], [Asset(tenant, 0, map[], map[])],
                     [Snapshot(0, [column], Unavailable)],
                     [Job(0, Apply, Complete, Load(SeedBook()), 2, None, 0, 0, None)], [], [])
  {
    var s1, s2 := PinForImport(tenant), Register(tenant, None, [column], Unavailable, Some(0), []);
    assert Run([]) == START;
    hide Run, SeedBook, Load, WorldInv, Linked, Next;
    RunExtend([], s1);
    RunExtend([s1], s2);
    assert [] + [s1] == [s1] && [s1] + [s2] == CleanImport(tenant, column);
    PinStep(tenant);
    RegisterStep(Run([s1]), tenant, column, Load(SeedBook()));
  }

  lemma AddRuleStep(w: World, tenant: string, id: string, creation: Creation)
    requires Linked(w.db) && tenant in w.db.books && w.db.books[tenant] == SeedBook()
    requires CreateRule(SeedBook(), id, creation).Success?
    ensures var u := Next(w, AddRule(tenant, id, creation)).db;
            u == w.db.(clock := w.db.clock + 1, books := u.books, events := u.events) && tenant in u.books
            && u.books[tenant].version == SeedBook().version + 1
  {
    hide SeedBook, Linked;
  }

  /** The version check alone would not do: a new rule leaves every policy version where it is and masks everything. */
  lemma PolicyVersionAloneIsNotEnough(tenant: string, column: string, id: string, creation: Creation)
    requires CreateRule(SeedBook(), id, creation).Success?
    ensures var a := Run(CleanImport(tenant, column)).db;
            var b := Run(CleanImport(tenant, column) + [AddRule(tenant, id, creation)]).db;
            && |a.snapshots| == 1 && |b.snapshots| == 1 && PolicyVersion(a, 0) == PolicyVersion(b, 0)
            && Protected(a, 0) == {} && Protected(b, 0) == {column}
  {
    CleanImportRuns(tenant, column);
    RunExtend(CleanImport(tenant, column), AddRule(tenant, id, creation));
    AddRuleStep(Run(CleanImport(tenant, column)), tenant, id, creation);
    hide Run, SeedBook, Load, WorldInv, CreateRule, Next;
    var a := Run(CleanImport(tenant, column)).db;
    var b := Run(CleanImport(tenant, column) + [AddRule(tenant, id, creation)]).db;
    ImportedIsClean(a, tenant, column);
    NewRuleMasks(a, b, tenant, column);
  }

  ghost predicate OneImport(t: Tables, tenant: string, column: string) {
    && |t.jobs| == 1 && t.jobs[0].purpose.Apply? && t.jobs[0].state.Complete? && t.jobs[0].snapshot == 0
    && t.assets == [Asset(tenant, 0, map[], map[])] && t.snapshots == [Snapshot(0, [column], Unavailable)]
    && t.findings == [] && tenant in t.books
  }

  lemma ImportedIsClean(t: Tables, tenant: string, column: string)
    requires OneImport(t, tenant, column) && t.jobs[0].pinned.configVersion == t.books[tenant].version
    ensures Linked(t) && Protected(t, 0) == {}
  {
    assert t.jobs[..0] == [];
    assert Newest(t.jobs, 0, false) == Some(0);
  }

  lemma NewRuleMasks(a: Tables, b: Tables, tenant: string, column: string)
    requires OneImport(a, tenant, column) && OneImport(b, tenant, column) && b.jobs == a.jobs
    requires b.jobs[0].pinned.configVersion != b.books[tenant].version
    ensures Linked(b) && Protected(b, 0) == {column}
  {
    assert b.jobs[..0] == [];
    assert Newest(b.jobs, 0, false) == Some(0);
    assert !Verified(b, 0);
    assert column in b.snapshots[0].columns;
  }
}
