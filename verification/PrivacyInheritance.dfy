/**
 What a rescan takes over from the scan before it, and which columns it leaves in clear, for every publication of every
 run.
 */
module PrivacyInheritance {
  import opened Wrappers
  import opened DetectorRules
  import opened PrivacyTables
  import T = PrivacyTransactions
  import opened PrivacySystem
  import opened PrivacyInvariants
  import opened PrivacyHistory
  import opened PrivacyRuns

  // ---- findings of one scan have keys of their own ---------------------------------------------

  ghost predicate KeysApart(findings: seq<Finding>) {
    forall i, j :: 0 <= i < j < |findings| && findings[i].scan.Some? && findings[i].scan == findings[j].scan ==>
      T.KeyOf(findings[i].hit).None? || T.KeyOf(findings[i].hit) != T.KeyOf(findings[j].hit)
  }

  lemma InsertableKeys(found: seq<Hit>, i: nat, j: nat)
    requires T.Insertable(found, true) && i < j < |found|
    ensures T.KeyOf(found[i]).None? || T.KeyOf(found[i]) != T.KeyOf(found[j])
  {
    assert !T.Collide(found[i], found[j], true);
  }

  /** New rows of one scan next to the rows of others. */
  lemma AppendedApart(findings: seq<Finding>, rows: seq<Finding>, scan: Option<nat>, found: seq<Hit>)
    requires KeysApart(findings) && |rows| == |found| && (scan.Some? ==> T.Insertable(found, true))
    requires forall f <- findings :: scan.Some? ==> f.scan != scan
    requires forall i :: 0 <= i < |rows| ==> rows[i].scan == scan && rows[i].hit == found[i]
    ensures KeysApart(findings + rows)
  {
    hide T.KeyOf, T.Insertable;
    var all := findings + rows;
    forall i, j | 0 <= i < j < |all| && all[i].scan.Some? && all[i].scan == all[j].scan
      ensures T.KeyOf(all[i].hit).None? || T.KeyOf(all[i].hit) != T.KeyOf(all[j].hit)
    {
      if i < |findings| {
        assert all[i] in findings;
      } else {
        InsertableKeys(found, i - |findings|, j - |findings|);
      }
    }
  }

  lemma SameHitsApart(a: seq<Finding>, b: seq<Finding>)
    requires KeysApart(a) && |b| == |a| && forall i :: 0 <= i < |a| ==> FindingMoves(a[i], b[i])
    ensures KeysApart(b)
  {
    hide T.KeyOf;
  }

  lemma PublishKeepsApart(t: Tables, l: T.Lease, found: seq<Hit>)
    requires Inv(t) && KeysApart(t.findings)
    ensures KeysApart(T.Publish(t, l, found).0.findings)
  {
    var (u, outcome) := T.Publish(t, l, found);
    if outcome.Published? && t.jobs[l.scan].purpose.Apply? {
      PublishedRows(t, l, found);
      forall f | f in t.findings
        ensures f.scan != Some(l.scan)
      {
        assert Attributed(t, f);
      }
      var rows := T.Rows(t.jobs[l.scan].snapshot, l.scan, found, T.DecisionsBefore(t, t.jobs[l.scan].snapshot));
      hide Inv, T.Publish, T.DecisionsBefore, KeysApart;
      AppendedApart(t.findings, rows, Some(l.scan), found);
    } else {
      hide Inv, KeysApart, T.WriteFindings;
      assert u.findings == t.findings;
    }
  }

  lemma RegisterKeepsApart(t: Tables, tenant: string, target: Option<nat>, columns: seq<string>, importScan: ImportScan,
                           pin: Option<Pinned>, found: seq<Hit>)
    requires Linked(t) && KeysApart(t.findings)
    ensures KeysApart(T.Register(t, tenant, target, columns, importScan, pin, found).0.findings)
  {
    hide T.FirstOfEach, KeysApart;
    var added := T.AddSnapshot(t, tenant, target, columns, importScan);
    if added.Some? {
      var n := |t.snapshots|;
      var (scanned, scan) := T.AddImportJob(added.value, n, pin);
      var hits := T.FirstOfEach(found, scan.Some?);
      var rows := seq(|hits|, i requires 0 <= i < |hits| => Finding(n, scan, hits[i], Detected, None));
      AppendedApart(t.findings, rows, scan, hits);
    }
  }

  lemma OtherStepsKeepHits(w: World, step: Step)
    requires Linked(w.db) && !step.Publish? && !step.Register?
    ensures var u := Do(w, step).db.findings;
            |u| == |w.db.findings| && forall i :: 0 <= i < |u| ==> FindingMoves(w.db.findings[i], u[i])
  {
    hide WellFormed, Load, Linked, SeedBook, CreateRule, UpdateRule, T.PinFor;
  }

  lemma StepKeepsApart(w: World, step: Step)
    requires Inv(w.db) && Linked(w.db) && KeysApart(w.db.findings)
    ensures KeysApart(Do(w, step).db.findings)
  {
    hide Inv, KeysApart, Linked, T.Publish, T.Register;
    if step.Publish? {
      if step.worker < |w.workers| { PublishKeepsApart(w.db, w.workers[step.worker].lease, step.found); }
    } else if step.Register? {
      if step.pin.None? {
        RegisterKeepsApart(w.db, step.tenant, step.target, step.columns, step.importScan, None, step.found);
      } else if step.pin.value < |w.pins| {
        RegisterKeepsApart(w.db, step.tenant, step.target, step.columns, step.importScan,
                           Some(w.pins[step.pin.value].pinned), step.found);
      }
    } else {
      OtherStepsKeepHits(w, step);
      SameHitsApart(w.db.findings, Do(w, step).db.findings);
    }
  }

  lemma {:induction false} KeysStayApart(steps: seq<Step>)
    ensures KeysApart(Run(steps).db.findings)
  {
    hide Do, KeysApart, Inv;
    if |steps| > 0 {
      var before := Run(steps[..|steps| - 1]);
      KeysStayApart(steps[..|steps| - 1]);
      RunInv(steps[..|steps| - 1]);
      hide WorldInv;
      AdvanceKeeps(before);
      InvLinked(Advance(before).db);
      StepKeepsApart(Advance(before), steps[|steps| - 1]);
    } else {
      NothingApart();
    }
  }

  lemma NothingApart()
    ensures KeysApart([])
  {
  }

  // ---- every publication -----------------------------------------------------------------------

  /**
   Finding `g` of the newest complete scan carries a decision for a hit of the same rule revision, column and path.
   */
  ghost predicate Carries(t: Tables, g: nat, snapshot: nat, h: Hit) {
    && g < |t.findings| && t.findings[g].scan.Some? && t.findings[g].scan == Newest(t.jobs, snapshot, true)
    && !t.findings[g].status.Detected? && T.KeyOf(h).Some? && T.KeyOf(t.findings[g].hit) == T.KeyOf(h)
  }

  lemma {:induction false} DecidedIsKept(findings: seq<Finding>, scan: nat, g: nat)
    requires g < |findings| && findings[g].scan == Some(scan) && !findings[g].status.Detected?
             && T.KeyOf(findings[g].hit).Some?
    ensures T.KeyOf(findings[g].hit).value in T.Decisions(findings, scan)
  {
    var n := |findings| - 1;
    if g < n {
      assert findings[..n][g] == findings[g];
      DecidedIsKept(findings[..n], scan, g);
    }
  }

  /** `d` is the decision carried for `h`; without one, `h` is undecided. */
  ghost predicate TakesOver(t: Tables, snapshot: nat, h: Hit, d: T.Decision) {
    && (forall g: nat :: Carries(t, g, snapshot, h) ==> d == T.DecisionOf(t.findings[g]))
    && ((forall g: nat :: !Carries(t, g, snapshot, h)) ==> d == T.Decision(Detected, None))
  }

  lemma InheritedDecision(t: Tables, snapshot: nat, h: Hit)
    requires KeysApart(t.findings)
    ensures TakesOver(t, snapshot, h, T.Inherited(h, T.DecisionsBefore(t, snapshot)))
  {
    hide Newest;
    var newest := Newest(t.jobs, snapshot, true);
    var decisions := T.DecisionsBefore(t, snapshot);
    if T.KeyOf(h).Some? && newest.Some? {
      var key := T.KeyOf(h).value;
      if key in decisions {
        DecisionsComeFromFindings(t.findings, newest.value, key);
        var g: nat :| g < |t.findings| && t.findings[g].scan == newest && T.KeyOf(t.findings[g].hit) == Some(key)
                      && !t.findings[g].status.Detected? && T.DecisionOf(t.findings[g]) == decisions[key];
        assert Carries(t, g, snapshot, h);
        forall other: nat | Carries(t, other, snapshot, h)
          ensures other == g
        {
          assert other < g || g < other || other == g;
        }
      } else {
        forall g: nat
          ensures !Carries(t, g, snapshot, h)
        {
          if Carries(t, g, snapshot, h) { DecidedIsKept(t.findings, newest.value, g); }
        }
      }
    }
  }

  /** The row a hit of an applied scan is stored as, with the decision it takes over. */
  ghost predicate StoredAs(t: Tables, scan: nat, h: Hit, f: Finding)
    requires scan < |t.jobs|
  {
    f.snapshot == t.jobs[scan].snapshot && f.scan == Some(scan) && f.hit == h
      && TakesOver(t, f.snapshot, h, T.DecisionOf(f))
  }

  /** One new finding per hit, in order, and nothing else. */
  ghost predicate AppliedWith(a: Tables, b: Tables, scan: nat, found: seq<Hit>) {
    && scan < |a.jobs| && |b.findings| == |a.findings| + |found| && a.findings <= b.findings
    && forall k :: 0 <= k < |found| ==> StoredAs(a, scan, found[k], b.findings[|a.findings| + k])
  }

  lemma PublishTakesOver(t: Tables, l: T.Lease, found: seq<Hit>)
    requires Inv(t) && KeysApart(t.findings) && T.Publish(t, l, found).1.Published? && t.jobs[l.scan].purpose.Apply?
    ensures AppliedWith(t, T.Publish(t, l, found).0, l.scan, found)
  {
    hide Inv, KeysApart, T.Publish, T.DecisionsBefore, T.Inherited, TakesOver, Linked, WellFormed, Load, AssetOf;
    InvLinked(t);
    var u := T.Publish(t, l, found).0;
    PublishedIsFenced(t, l, found);
    PublishedRows(t, l, found);
    forall k | 0 <= k < |found|
      ensures StoredAs(t, l.scan, found[k], u.findings[|t.findings| + k])
    {
      InheritedDecision(t, t.jobs[l.scan].snapshot, found[k]);
    }
  }

  lemma PublishedByWorker(w: World, i: nat, found: seq<Hit>)
    requires Linked(w.db) && i < |w.workers| && !w.workers[i].published
    requires Linked(Advance(w).db) && i < |Next(w, Publish(i, found)).workers|
             && Next(w, Publish(i, found)).workers[i].published
    ensures T.Publish(Advance(w).db, w.workers[i].lease, found).1.Published?
    ensures Next(w, Publish(i, found)).db == T.Publish(Advance(w).db, w.workers[i].lease, found).0
  {
    hide T.Publish, Linked;
  }

  lemma TimeTakesNothingOver(t: Tables, u: Tables, later: nat, scan: nat, found: seq<Hit>)
    requires AppliedWith(t.(clock := later), u, scan, found)
    ensures AppliedWith(t, u, scan, found)
  {
    hide TakesOver;
    var v := t.(clock := later);
    forall k | 0 <= k < |found|
      ensures StoredAs(t, scan, found[k], u.findings[|t.findings| + k])
    {
      var f := u.findings[|v.findings| + k];
      assert StoredAs(v, scan, found[k], f);
      SameDecisions(v, t, f.snapshot, f.hit, T.DecisionOf(f));
    }
  }

  lemma SameDecisions(a: Tables, b: Tables, snapshot: nat, h: Hit, d: T.Decision)
    requires a.jobs == b.jobs && a.findings == b.findings && TakesOver(a, snapshot, h, d)
    ensures TakesOver(b, snapshot, h, d)
  {
    hide Newest, T.KeyOf;
    assert forall g: nat :: Carries(a, g, snapshot, h) == Carries(b, g, snapshot, h);
  }

  /**
   Whenever a scan is applied, each of its hits is stored with exactly the decision that the newest complete scan of the
   snapshot holds for the same rule revision, column and path, status and review alike, and undecided if it holds none.
   */
  lemma PublicationInherits(before: seq<Step>, i: nat, found: seq<Hit>)
    requires var w := Run(before);
             && i < |w.workers| && !w.workers[i].published
             && w.workers[i].lease.scan < |w.db.jobs| && w.db.jobs[w.workers[i].lease.scan].purpose.Apply?
             && i < |Next(w, Publish(i, found)).workers| && Next(w, Publish(i, found)).workers[i].published
    ensures var w := Run(before); AppliedWith(w.db, Next(w, Publish(i, found)).db, w.workers[i].lease.scan, found)
  {
    var w := Run(before);
    KeysStayApart(before);
    RunInv(before);
    AdvanceKeeps(w);
    var t := Advance(w).db;
    InvLinked(t);
    hide Run, Next, WorldInv, KeysApart, Evolves, MaskKept, Inv, Linked, T.Publish, AppliedWith;
    PublishedByWorker(w, i, found);
    PublishTakesOver(t, w.workers[i].lease, found);
    TimeTakesNothingOver(w.db, Next(w, Publish(i, found)).db, t.clock, w.workers[i].lease.scan, found);
  }

  // ---- what an applied scan leaves in clear ----------------------------------------------------

  ghost predicate WasDismissed(t: Tables, snapshot: nat, h: Hit) {
    exists g: nat :: Carries(t, g, snapshot, h) && t.findings[g].status.Dismissed?
  }

  /**
   The scan is pinned to the rules of today, the column is not declared sensitive, no finding in it is confirmed, and
   whatever the scan found in it was dismissed in the scan before.
   */
  ghost predicate StaysClear(t: Tables, scan: nat, found: seq<Hit>, column: string)
    requires Linked(t) && scan < |t.jobs| && t.jobs[scan].snapshot < |t.snapshots|
  {
    var snapshot := t.jobs[scan].snapshot;
    var tenant := TenantOf(t, snapshot);
    && t.jobs[scan].pinned.configVersion == (if tenant in t.books then t.books[tenant].version else 0)
    && !DeclaredSensitive(t, snapshot, column)
    && (forall f <- t.findings :: f.snapshot == snapshot && f.hit.column == column ==> !f.status.Confirmed?)
    && (forall h <- found :: h.column == column ==> WasDismissed(t, snapshot, h))
  }

  lemma CompleteIsCandidate(j: Job, snapshot: nat)
    requires Candidate(j, snapshot, true)
    ensures Candidate(j, snapshot, false) && j.state.Complete?
  {
  }

  lemma AppliedIsNewest(t: Tables, u: Tables, scan: nat, completeOnly: bool)
    requires Chronological(u) && OnlyLastActive(t.jobs) && scan < |t.jobs| && Active(t.jobs[scan])
             && t.jobs[scan].purpose.Apply?
    requires |u.jobs| == |t.jobs| && u.jobs == t.jobs[scan := u.jobs[scan]]
    requires Candidate(u.jobs[scan], t.jobs[scan].snapshot, true)
    ensures Newest(u.jobs, t.jobs[scan].snapshot, completeOnly) == Some(scan)
  {
    var snapshot := t.jobs[scan].snapshot;
    NewestIsLast(u.jobs, snapshot, completeOnly);
    CompleteIsCandidate(u.jobs[scan], snapshot);
    forall j | scan < j < |u.jobs|
      ensures !Candidate(u.jobs[j], snapshot, completeOnly)
    {
      assert u.jobs[j] == t.jobs[j];
    }
  }

  /** A new row counts for the mask unless it took over a dismissal. */
  lemma RowIsDismissed(t: Tables, scan: nat, h: Hit, f: Finding)
    requires scan < |t.jobs| && StoredAs(t, scan, h, f)
    ensures f.status.Dismissed? <==> WasDismissed(t, t.jobs[scan].snapshot, h)
  {
    if f.status.Dismissed? {
      assert T.DecisionOf(f) != T.Decision(Detected, None);
    }
  }

  lemma AppliedDetects(t: Tables, u: Tables, scan: nat, found: seq<Hit>, column: string)
    requires AppliedWith(t, u, scan, found) && Newest(u.jobs, t.jobs[scan].snapshot, true) == Some(scan)
    requires forall f <- t.findings :: f.scan != Some(scan)
    ensures DetectedColumn(u, t.jobs[scan].snapshot, column) <==>
              (exists f <- t.findings ::
               f.snapshot == t.jobs[scan].snapshot && f.hit.column == column && f.status.Confirmed?)
              || exists k ::
                   0 <= k < |found| && found[k].column == column && !u.findings[|t.findings| + k].status.Dismissed?
  {
    hide Newest, TakesOver;
    var snapshot := t.jobs[scan].snapshot;
    if DetectedColumn(u, snapshot, column) {
      var f :| f in u.findings && Flags(u, f, snapshot, column);
      var n :| 0 <= n < |u.findings| && u.findings[n] == f;
      if n < |t.findings| {
        assert t.findings[n] == f;
      } else {
        assert StoredAs(t, scan, found[n - |t.findings|], f);
      }
    }
    if exists f <- t.findings :: f.snapshot == snapshot && f.hit.column == column && f.status.Confirmed? {
      var f :| f in t.findings && f.snapshot == snapshot && f.hit.column == column && f.status.Confirmed?;
      assert f in u.findings && Flags(u, f, snapshot, column);
    }
    if exists k :: 0 <= k < |found| && found[k].column == column && !u.findings[|t.findings| + k].status.Dismissed? {
      var k :| 0 <= k < |found| && found[k].column == column && !u.findings[|t.findings| + k].status.Dismissed?;
      var f := u.findings[|t.findings| + k];
      assert StoredAs(t, scan, found[k], f);
      assert f in u.findings && Flags(u, f, snapshot, column);
    }
  }

  lemma RowsAreDismissed(t: Tables, u: Tables, scan: nat, found: seq<Hit>, column: string)
    requires AppliedWith(t, u, scan, found)
    ensures (forall k :: 0 <= k < |found| && found[k].column == column ==>
             u.findings[|t.findings| + k].status.Dismissed?) <==>
              forall h <- found :: h.column == column ==> WasDismissed(t, t.jobs[scan].snapshot, h)
  {
    hide WasDismissed, StoredAs;
    forall k | 0 <= k < |found|
      ensures u.findings[|t.findings| + k].status.Dismissed? <==> WasDismissed(t, t.jobs[scan].snapshot, found[k])
    {
      assert StoredAs(t, scan, found[k], u.findings[|t.findings| + k]);
      RowIsDismissed(t, scan, found[k], u.findings[|t.findings| + k]);
    }
  }

  /** What the publication leaves of declarations and of the scan's pin. */
  lemma AppliedTables(t: Tables, l: T.Lease, found: seq<Hit>, column: string)
    requires Inv(t) && T.Publish(t, l, found).1.Published? && t.jobs[l.scan].purpose.Apply?
    ensures var u := T.Publish(t, l, found).0;
            var snapshot := t.jobs[l.scan].snapshot;
            && Inv(u) && snapshot < |t.snapshots| && u.snapshots == t.snapshots
            && (forall f <- t.findings :: f.scan != Some(l.scan))
            && (forall completeOnly :: Newest(u.jobs, snapshot, completeOnly) == Some(l.scan))
            && u.jobs[l.scan].state.Complete? && u.jobs[l.scan].pinned == t.jobs[l.scan].pinned
            && TenantOf(u, snapshot) == TenantOf(t, snapshot) && u.books == t.books
            && (DeclaredSensitive(u, snapshot, column) <==> DeclaredSensitive(t, snapshot, column))
  {
    hide T.Publish, MaskKept, Evolves, WellFormed, Load, Newest, JobPinned, Inv;
    InvLinked(t);
    PublishedIsFenced(t, l, found);
    PublishedRows(t, l, found);
    PublishKeeps(t, l, found);
    var u := T.Publish(t, l, found).0;
    LeasedScan(t, l);
    InvOrders(u);
    AppliedIsNewest(t, u, l.scan, false);
    AppliedIsNewest(t, u, l.scan, true);
  }

  lemma InvOrders(t: Tables)
    requires Inv(t)
    ensures Chronological(t) && OnlyLastActive(t.jobs)
  {
  }

  /** A scan under lease has no findings yet. */
  lemma LeasedScan(t: Tables, l: T.Lease)
    requires Inv(t) && T.Fenced(t, l)
    ensures t.jobs[l.scan].snapshot < |t.snapshots| && Chronological(t) && OnlyLastActive(t.jobs)
    ensures forall f <- t.findings :: f.scan != Some(l.scan)
  {
    hide WellFormed, Load, JobPinned, OnlyLastActive, Chronological;
    forall f | f in t.findings
      ensures f.scan != Some(l.scan)
    {
      assert Attributed(t, f);
    }
  }

  lemma AppliedMask(t: Tables, l: T.Lease, found: seq<Hit>, column: string)
    requires Inv(t) && KeysApart(t.findings) && T.Publish(t, l, found).1.Published? && t.jobs[l.scan].purpose.Apply?
    requires t.jobs[l.scan].snapshot < |t.snapshots| && column in t.snapshots[t.jobs[l.scan].snapshot].columns
    ensures var u := T.Publish(t, l, found).0;
            Linked(u) && t.jobs[l.scan].snapshot < |u.snapshots|
            && (column !in Protected(u, t.jobs[l.scan].snapshot) <==> StaysClear(t, l.scan, found, column))
  {
    var u := T.Publish(t, l, found).0;
    AppliedTables(t, l, found, column);
    PublishTakesOver(t, l, found);
    InvLinked(u);
    hide T.Publish, Inv, KeysApart, Newest, AppliedWith, Linked, DeclaredSensitive, WasDismissed, DetectedColumn,
         T.Fenced;
    AppliedDetects(t, u, l.scan, found, column);
    RowsAreDismissed(t, u, l.scan, found, column);
  }

  /**
   Which columns an applied scan leaves in clear, in any run: exactly those that are not declared sensitive, have no
   confirmed finding from any scan, and in which everything it found had been dismissed in the complete scan before it,
   provided its pinned rules are still the tenant's.
   */
  lemma RescanLeavesClear(before: seq<Step>, i: nat, found: seq<Hit>, column: string)
    requires var w := Run(before);
             && i < |w.workers| && !w.workers[i].published
             && w.workers[i].lease.scan < |w.db.jobs| && w.db.jobs[w.workers[i].lease.scan].purpose.Apply?
             && w.db.jobs[w.workers[i].lease.scan].snapshot < |w.db.snapshots|
             && column in w.db.snapshots[w.db.jobs[w.workers[i].lease.scan].snapshot].columns
             && i < |Next(w, Publish(i, found)).workers| && Next(w, Publish(i, found)).workers[i].published
    ensures var w := Run(before);
            var u := Next(w, Publish(i, found)).db;
            var scan := w.workers[i].lease.scan;
            && Linked(u) && w.db.jobs[scan].snapshot < |u.snapshots|
            && (column !in Protected(u, w.db.jobs[scan].snapshot) <==> StaysClear(w.db, scan, found, column))
  {
    var w := Run(before);
    KeysStayApart(before);
    RunInv(before);
    AdvanceKeeps(w);
    var t := Advance(w).db;
    InvLinked(t);
    InvLinked(w.db);
    hide Run, Next, WorldInv, KeysApart, Evolves, MaskKept, Inv, Linked, T.Publish, StaysClear, Protected;
    PublishedByWorker(w, i, found);
    AppliedMask(t, w.workers[i].lease, found, column);
    TimeClearsNothing(w.db, t.clock, w.workers[i].lease.scan, found, column);
  }

  lemma TimeClearsNothing(t: Tables, later: nat, scan: nat, found: seq<Hit>, column: string)
    requires Linked(t) && scan < |t.jobs| && t.jobs[scan].snapshot < |t.snapshots|
    ensures Linked(t.(clock := later))
    ensures StaysClear(t.(clock := later), scan, found, column) <==> StaysClear(t, scan, found, column)
  {
    var v := t.(clock := later);
    hide Newest, T.KeyOf;
    assert forall g: nat, h: Hit :: Carries(v, g, t.jobs[scan].snapshot, h) == Carries(t, g, t.jobs[scan].snapshot, h);
    hide Carries;
    assert forall h: Hit :: WasDismissed(v, t.jobs[scan].snapshot, h) == WasDismissed(t, t.jobs[scan].snapshot, h);
    hide WasDismissed;
  }
}
