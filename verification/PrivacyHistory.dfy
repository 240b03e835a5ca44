/** What the audit log and the findings remember: who decided on a finding, and how each scan ended. */
module PrivacyHistory {
  import opened Wrappers
  import opened DetectorRules
  import opened PrivacyTables
  import opened PrivacyTransactions
  import opened PrivacyInvariants

  // ---- where a review decision comes from ------------------------------------------------------

  /** The audit log shows a person deciding on finding `f`: status, reviewer, reason and time. */
  ghost predicate HumanDecision(t: Tables, f: nat, d: Decision) {
    exists e <- t.events :: e.StatusChanged? && e.finding == f && d == Decision(e.after, Some(e.review))
  }

  ghost predicate CompleteApply(t: Tables, scan: nat, snapshot: nat) {
    scan < |t.jobs| && Candidate(t.jobs[scan], snapshot, true)
  }

  /** Two complete APPLY scans of a snapshot with no complete one between them. */
  ghost predicate Consecutive(t: Tables, before: nat, after: nat, snapshot: nat) {
    && before < after && CompleteApply(t, before, snapshot) && CompleteApply(t, after, snapshot)
    && forall k :: before < k < after ==> !CompleteApply(t, k, snapshot)
  }

  /** Finding f could take over the decision on g: same rule revision, column and path, in the next complete scan. */
  ghost predicate Succeeds(t: Tables, f: nat, g: nat) {
    && g < f < |t.findings|
    && t.findings[f].snapshot == t.findings[g].snapshot
    && KeyOf(t.findings[f].hit).Some? && KeyOf(t.findings[f].hit) == KeyOf(t.findings[g].hit)
    && t.findings[f].scan.Some? && t.findings[g].scan.Some?
    && Consecutive(t, t.findings[g].scan.value, t.findings[f].scan.value, t.findings[f].snapshot)
  }

  ghost predicate Traced(t: Tables, f: nat, d: Decision)
    decreases f
  {
    HumanDecision(t, f, d) || exists g: nat :: g < f && Succeeds(t, f, g) && Traced(t, g, d)
  }

  ghost predicate AllTraced(t: Tables) {
    forall f :: 0 <= f < |t.findings| && !t.findings[f].status.Detected? ==> Traced(t, f, DecisionOf(t.findings[f]))
  }

  /** The same, as an explicit chain: each finding succeeds the next, and a person decided on the last. */
  ghost predicate DecisionChain(t: Tables, chain: seq<nat>, d: Decision) {
    && |chain| > 0
    && (forall i :: 0 <= i < |chain| - 1 ==> Succeeds(t, chain[i], chain[i + 1]))
    && HumanDecision(t, chain[|chain| - 1], d)
  }

  lemma {:induction false} TracedHasChain(t: Tables, f: nat, d: Decision)
    requires Traced(t, f, d)
    ensures exists chain :: DecisionChain(t, chain, d) && chain[0] == f
    decreases f
  {
    if HumanDecision(t, f, d) {
      assert DecisionChain(t, [f], d);
    } else {
      var g: nat :| g < f && Succeeds(t, f, g) && Traced(t, g, d);
      TracedHasChain(t, g, d);
      var rest :| DecisionChain(t, rest, d) && rest[0] == g;
      var chain := [f] + rest;
      forall i | 0 <= i < |chain| - 1
        ensures Succeeds(t, chain[i], chain[i + 1])
      {
        assert i > 0 ==> Succeeds(t, rest[i - 1], rest[i]);
      }
      assert DecisionChain(t, chain, d);
    }
  }

  /** Nothing that happens later can come between two consecutive complete scans. */
  lemma ConsecutiveLasts(t: Tables, u: Tables, before: nat, after: nat, snapshot: nat)
    requires Consecutive(t, before, after, snapshot) && OnlyLastActive(t.jobs)
    requires |t.jobs| <= |u.jobs| && forall i :: 0 <= i < |t.jobs| ==> JobMoves(t.jobs[i], u.jobs[i])
    ensures Consecutive(u, before, after, snapshot)
  {
    forall k | before < k < after
      ensures !CompleteApply(u, k, snapshot)
    {
      assert !CompleteApply(t, k, snapshot) && JobMoves(t.jobs[k], u.jobs[k]);
      assert JobMoves(t.jobs[after], u.jobs[after]);
    }
    assert JobMoves(t.jobs[before], u.jobs[before]) && JobMoves(t.jobs[after], u.jobs[after]);
  }

  lemma SucceedsLasts(t: Tables, u: Tables, f: nat, g: nat)
    requires Succeeds(t, f, g) && OnlyLastActive(t.jobs) && Evolves(t, u)
    ensures Succeeds(u, f, g)
  {
    hide WellFormed, Load;
    ConsecutiveLasts(t, u, t.findings[g].scan.value, t.findings[f].scan.value, t.findings[f].snapshot);
    assert FindingMoves(t.findings[f], u.findings[f]) && FindingMoves(t.findings[g], u.findings[g]);
  }

  lemma {:induction false} TracedLasts(t: Tables, u: Tables, f: nat, d: Decision)
    requires Traced(t, f, d) && OnlyLastActive(t.jobs) && Evolves(t, u)
    ensures Traced(u, f, d)
    decreases f
  {
    hide Evolves, Succeeds;
    if HumanDecision(t, f, d) {
      HumanDecisionLasts(t, u, f, d);
    } else {
      var g: nat :| g < f && Succeeds(t, f, g) && Traced(t, g, d);
      SucceedsLasts(t, u, f, g);
      TracedLasts(t, u, g, d);
    }
  }

  lemma HumanDecisionLasts(t: Tables, u: Tables, f: nat, d: Decision)
    requires HumanDecision(t, f, d) && Evolves(t, u)
    ensures HumanDecision(u, f, d)
  {
    hide WellFormed, Load;
    var e :| e in t.events && e.StatusChanged? && e.finding == f && d == Decision(e.after, Some(e.review));
    assert e in u.events;
  }

  /** A step that leaves every decision where it was, or adds undecided findings, keeps them all traced. */
  lemma DecisionsUntouched(t: Tables, u: Tables)
    requires AllTraced(t) && OnlyLastActive(t.jobs) && Evolves(t, u)
    requires forall i :: 0 <= i < |t.findings| ==> DecisionOf(u.findings[i]) == DecisionOf(t.findings[i])
    requires forall i :: |t.findings| <= i < |u.findings| ==> u.findings[i].status.Detected?
    ensures AllTraced(u)
  {
    hide Evolves, Traced;
    forall f | 0 <= f < |u.findings| && !u.findings[f].status.Detected?
      ensures Traced(u, f, DecisionOf(u.findings[f]))
    {
      TracedLasts(t, u, f, DecisionOf(t.findings[f]));
    }
  }

  lemma {:induction false} DecisionsComeFromFindings(findings: seq<Finding>, scan: nat, key: Key)
    requires key in Decisions(findings, scan)
    ensures exists g :: 0 <= g < |findings| && findings[g].scan == Some(scan) && KeyOf(findings[g].hit) == Some(key)
              && !findings[g].status.Detected? && DecisionOf(findings[g]) == Decisions(findings, scan)[key]
  {
    var n := |findings| - 1;
    var f := findings[n];
    if f.scan == Some(scan) && !f.status.Detected? && KeyOf(f.hit) == Some(key) {
    } else {
      DecisionsComeFromFindings(findings[..n], scan, key);
      var g :| 0 <= g < n && findings[..n][g].scan == Some(scan) && KeyOf(findings[..n][g].hit) == Some(key)
               && !findings[..n][g].status.Detected? && DecisionOf(findings[..n][g]) ==
                    Decisions(findings[..n], scan)[key];
      assert findings[g] == findings[..n][g];
    }
  }

  lemma PublishKeepsTraced(t: Tables, l: Lease, found: seq<Hit>)
    requires Inv(t) && AllTraced(t)
    ensures AllTraced(Publish(t, l, found).0)
  {
    hide WellFormed, Load, Traced, Evolves;
    var (u, outcome) := Publish(t, l, found);
    PublishKeeps(t, l, found);
    if outcome.Published? && t.jobs[l.scan].purpose.Apply? {
      PublishedRows(t, l, found);
      hide Publish;
      forall f | 0 <= f < |u.findings| && !u.findings[f].status.Detected?
        ensures Traced(u, f, DecisionOf(u.findings[f]))
      {
        if f < |t.findings| {
          assert u.findings[f] == t.findings[f];
          TracedLasts(t, u, f, DecisionOf(t.findings[f]));
        } else {
          InheritedIsTraced(t, u, l, found, f);
        }
      }
    } else {
      DecisionsUntouched(t, u);
    }
  }

  /** A decision carried over by a publication comes from the complete scan just before it. */
  lemma InheritedIsTraced(t: Tables, u: Tables, l: Lease, found: seq<Hit>, f: nat)
    requires Inv(t) && AllTraced(t) && u == Publish(t, l, found).0 && Publish(t, l, found).1.Published?
    requires t.jobs[l.scan].purpose.Apply? && |t.findings| <= f < |u.findings| && !u.findings[f].status.Detected?
    ensures Traced(u, f, DecisionOf(u.findings[f]))
  {
    hide WellFormed, Load, Traced, JobPinned, Publish, Evolves;
    PublishedIsFenced(t, l, found);
    PublishKeeps(t, l, found);
    PublishedRows(t, l, found);
    var snapshot := t.jobs[l.scan].snapshot;
    var h := found[f - |t.findings|];
    var decisions := DecisionsBefore(t, snapshot);
    assert u.findings[f] == Rows(snapshot, l.scan, found, decisions)[f - |t.findings|];
    assert KeyOf(h).Some? && KeyOf(h).value in decisions;
    var previous := Newest(t.jobs, snapshot, true).value;
    DecisionsComeFromFindings(t.findings, previous, KeyOf(h).value);
    var g :| 0 <= g < |t.findings| && t.findings[g].scan == Some(previous) && KeyOf(t.findings[g].hit) == KeyOf(h)
             && !t.findings[g].status.Detected? && DecisionOf(t.findings[g]) == DecisionOf(u.findings[f]);
    NewestPrecedes(t, u, l.scan, previous);
    assert t.findings[g].snapshot == snapshot by {
      assert Attributed(t, t.findings[g]);
    }
    assert u.findings[g] == t.findings[g];
    assert Succeeds(u, f, g);
    TracedLasts(t, u, g, DecisionOf(t.findings[g]));
    UnfoldTraced(u, f, g, DecisionOf(u.findings[f]));
  }

  lemma UnfoldTraced(t: Tables, f: nat, g: nat, d: Decision)
    requires g < f && Succeeds(t, f, g) && Traced(t, g, d)
    ensures Traced(t, f, d)
  {
  }

  /** When an active APPLY job completes, the newest complete scan is the one right before it. */
  lemma NewestPrecedes(t: Tables, u: Tables, scan: nat, previous: nat)
    requires Chronological(t) && OnlyLastActive(t.jobs) && scan < |t.jobs|
    requires Active(t.jobs[scan]) && t.jobs[scan].purpose.Apply?
    requires Newest(t.jobs, t.jobs[scan].snapshot, true) == Some(previous)
    requires |u.jobs| == |t.jobs| && u.jobs == t.jobs[scan := u.jobs[scan]]
    requires Candidate(u.jobs[scan], t.jobs[scan].snapshot, true)
    ensures Consecutive(u, previous, scan, t.jobs[scan].snapshot)
  {
    NewestIsLast(t.jobs, t.jobs[scan].snapshot, true);
    assert previous != scan;
    forall k | previous < k < scan
      ensures !CompleteApply(u, k, t.jobs[scan].snapshot)
    {
      assert u.jobs[k] == t.jobs[k];
    }
    assert u.jobs[previous] == t.jobs[previous];
  }

  lemma UpdateStatusKeepsTraced(t: Tables, finding: nat, expected: Status, confirm: bool, reviewer: string,
                                reason: string)
    requires Inv(t) && AllTraced(t)
    ensures AllTraced(UpdateStatus(t, finding, expected, confirm, reviewer, reason).0)
  {
    hide WellFormed, Load, Evolves, Succeeds;
    var u := UpdateStatus(t, finding, expected, confirm, reviewer, reason).0;
    UpdateStatusKeeps(t, finding, expected, confirm, reviewer, reason);
    if finding < |t.findings| && t.findings[finding].status == expected {
      forall f | 0 <= f < |u.findings| && !u.findings[f].status.Detected?
        ensures Traced(u, f, DecisionOf(u.findings[f]))
      {
        if f == finding {
          var e := u.events[|t.events|];
          assert e in u.events && e.StatusChanged? && e.finding == f
                 && DecisionOf(u.findings[f]) == Decision(e.after, Some(e.review));
        } else {
          TracedLasts(t, u, f, DecisionOf(t.findings[f]));
        }
      }
    }
  }

  // ---- how each scan ended ---------------------------------------------------------------------

  predicate EndsScan(e: Event) {
    e.ScanApplied? || e.ScanGaveUp?
  }

  /** Applied by a worker: imported scans complete without ever being leased. */
  predicate AppliedByWorker(j: Job) {
    j.purpose.Apply? && j.state.Complete? && j.generation > 0
  }

  ghost predicate Ended(events: seq<Event>, jobs: seq<Job>) {
    && (forall i, j :: 0 <= i < j < |events| && EndsScan(events[i]) && EndsScan(events[j]) ==>
        events[i].scan != events[j].scan)
    && (forall e <- events :: EndsScan(e) ==> e.scan < |jobs|)
    && (forall e <- events :: e.ScanGaveUp? ==> jobs[e.scan].state.Failed? && jobs[e.scan].error == Some(e.code))
    && (forall e <- events :: e.ScanApplied? ==> AppliedByWorker(jobs[e.scan]))
    && (forall n :: 0 <= n < |jobs| && jobs[n].state.Failed? ==> exists e <- events :: e.ScanGaveUp? && e.scan == n)
    && (forall n :: 0 <= n < |jobs| && AppliedByWorker(jobs[n]) ==> exists e <- events :: e.ScanApplied? && e.scan == n)
  }

  /** A step during which no scan ends, except a preview or an import that arrives complete. */
  ghost predicate NoScanEnds(a: Tables, b: Tables) {
    && a.events <= b.events && (forall e <- b.events[|a.events|..] :: !EndsScan(e))
    && |a.jobs| <= |b.jobs|
    && (forall i | 0 <= i < |a.jobs| ::
          && (b.jobs[i].state.Failed? <==> a.jobs[i].state.Failed?)
          && (a.jobs[i].state.Failed? ==> a.jobs[i] == b.jobs[i])
          && (AppliedByWorker(b.jobs[i]) <==> AppliedByWorker(a.jobs[i])))
    && (forall i :: |a.jobs| <= i < |b.jobs| ==> !b.jobs[i].state.Failed? && b.jobs[i].generation == 0)
  }

  lemma QuietStepKeepsEnded(a: Tables, b: Tables)
    requires Ended(a.events, a.jobs) && NoScanEnds(a, b)
    ensures Ended(b.events, b.jobs)
  {
    var more := b.events[|a.events|..];
    assert b.events == a.events + more;
    assert forall e :: e in b.events && EndsScan(e) ==> e in a.events;
    forall i, j | 0 <= i < j < |b.events| && EndsScan(b.events[i]) && EndsScan(b.events[j])
      ensures b.events[i].scan != b.events[j].scan
    {
      assert b.events[j] !in more by {
        assert forall e <- more :: !EndsScan(e);
      }
      assert j < |a.events|;
    }
    forall n | 0 <= n < |b.jobs| && b.jobs[n].state.Failed?
      ensures exists e <- b.events :: e.ScanGaveUp? && e.scan == n
    {
      var e :| e in a.events && e.ScanGaveUp? && e.scan == n;
      assert e in b.events;
    }
    forall n | 0 <= n < |b.jobs| && AppliedByWorker(b.jobs[n])
      ensures exists e <- b.events :: e.ScanApplied? && e.scan == n
    {
      var e :| e in a.events && e.ScanApplied? && e.scan == n;
      assert e in b.events;
    }
  }

  /** A job ends and the log gains the one event that says so. */
  lemma EndingKeepsEnded(events: seq<Event>, jobs: seq<Job>, n: nat, after: Job, e: Event)
    requires Ended(events, jobs) && n < |jobs| && Active(jobs[n])
    requires (e.ScanGaveUp? && e.scan == n && after.state.Failed? && after.error == Some(e.code))
             || (e.ScanApplied? && e.scan == n && AppliedByWorker(after))
    ensures Ended(events + [e], jobs[n := after])
  {
    var grown := events + [e];
    var moved := jobs[n := after];
    forall f | f in events && EndsScan(f)
      ensures f.scan != n
    {
    }
    forall m | 0 <= m < |moved| && moved[m].state.Failed?
      ensures exists f <- grown :: f.ScanGaveUp? && f.scan == m
    {
      if m == n {
        assert e in grown;
      } else {
        var f :| f in events && f.ScanGaveUp? && f.scan == m;
        assert f in grown;
      }
    }
    forall m | 0 <= m < |moved| && AppliedByWorker(moved[m])
      ensures exists f <- grown :: f.ScanApplied? && f.scan == m
    {
      if m == n {
        assert e in grown;
      } else {
        var f :| f in events && f.ScanApplied? && f.scan == m;
        assert f in grown;
      }
    }
  }

  lemma FailKeepsEnded(t: Tables, l: Lease, code: ErrorCode)
    requires Ended(t.events, t.jobs)
    ensures var u := Fail(t, l, code).0; Ended(u.events, u.jobs)
  {
    var u := Fail(t, l, code).0;
    if Fenced(t, l) && !(Transient(code) && l.attempt < MAX_ATTEMPTS) {
      EndingKeepsEnded(t.events, t.jobs, l.scan, u.jobs[l.scan], ScanGaveUp(l.scan, code));
    } else {
      assert u.events[|t.events|..] == [];
      QuietStepKeepsEnded(t, u);
    }
  }

  lemma PublishKeepsEnded(t: Tables, l: Lease, found: seq<Hit>)
    requires Inv(t) && Ended(t.events, t.jobs)
    ensures var u := Publish(t, l, found).0; Ended(u.events, u.jobs)
  {
    hide WellFormed, Load, JobPinned, Attributed, Ended, WriteFindings;
    var (u, outcome) := Publish(t, l, found);
    if outcome.Published? && t.jobs[l.scan].purpose.Apply? {
      assert Leased(t.jobs[l.scan]);
      PublishedRows(t, l, found);
      EndingKeepsEnded(t.events, t.jobs, l.scan, u.jobs[l.scan], u.events[|t.events|]);
    } else {
      assert u.events[|t.events|..] == [];
      QuietStepKeepsEnded(t, u);
    }
  }
}
