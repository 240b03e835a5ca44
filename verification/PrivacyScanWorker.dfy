/** The scan worker: claims jobs under a lease and writes only while the lease is its own. */
module PrivacyScanWorker {
  import opened Wrappers
  import opened PrivacyTables
  import opened PrivacyDatabase
  import T = PrivacyTransactions

  lemma DecisionsExtend(findings: seq<Finding>, f: Finding, scan: nat)
    ensures T.Decisions(findings + [f], scan) ==
              (if f.scan == Some(scan) && !f.status.Detected? && T.KeyOf(f.hit).Some?
               then T.Decisions(findings, scan)[T.KeyOf(f.hit).value := T.Decision(f.status, f.review)]
               else T.Decisions(findings, scan))
  {
    assert (findings + [f])[..|findings + [f]| - 1] == findings;
  }

  class Worker {
    const id: string
    const leaseSeconds: nat

    constructor (id: string, leaseSeconds: nat)
      ensures this.id == id && this.leaseSeconds == leaseSeconds
    {
      this.id, this.leaseSeconds := id, leaseSeconds;
    }

    /** `locked` are the rows that FOR UPDATE SKIP LOCKED passes over. */
    method ClaimNextJob(db: Database, locked: set<nat>) returns (lease: Option<T.Lease>)
      modifies db`jobs
      ensures (db.View(), lease) == T.Claim(old(db.View()), id, leaseSeconds, locked)
    {
      var row := T.Oldest(db.jobs, db.clock, locked);
      if row.None? {
        return None;
      }
      var job := db.jobs[row.value];
      job := job.(state := Running, hold := Some(Hold(id, db.clock + leaseSeconds)));
      job := job.(generation := job.generation + 1, attempts := job.attempts + 1);
      db.jobs := db.jobs[row.value := job];
      lease := Some(T.Lease(row.value, id, job.generation, job.attempts));
    }

    /**
     A kept lease is current for `leaseSeconds` more and not a second longer, as far as time goes; the row keeps all but
     its expiry, and every other row is what it was. A lost lease changes nothing.
     */
    method Heartbeat(db: Database, lease: T.Lease) returns (kept: bool)
      requires lease.owner == id
      modifies db`jobs
      ensures (db.View(), kept) == T.Heartbeat(old(db.View()), lease, leaseSeconds)
      ensures kept <==> T.Fenced(old(db.View()), lease)
      ensures kept ==> forall later: nat :: later >= db.clock ==>
                (T.Fenced(db.View().(clock := later), lease) <==> later <= db.clock + leaseSeconds)
      ensures kept ==> |db.jobs| == |old(db.jobs)|
                       && db.jobs[lease.scan] == old(db.jobs)[lease.scan].(hold := db.jobs[lease.scan].hold)
                       && forall j :: 0 <= j < |db.jobs| && j != lease.scan ==> db.jobs[j] == old(db.jobs)[j]
      ensures !kept ==> db.jobs == old(db.jobs)
    {
      kept := LockFenced(db, lease);
      if kept {
        db.jobs := db.jobs[lease.scan := db.jobs[lease.scan].(hold := Some(Hold(id, db.clock + leaseSeconds)))];
      }
    }

    /** Owner, generation and expiry are checked on the locked row; without the lease nothing may be written. */
    method LockFenced(db: Database, lease: T.Lease) returns (held: bool)
      requires lease.owner == id
      ensures held == T.Fenced(db.View(), lease)
    {
      if lease.scan >= |db.jobs| {
        return false;
      }
      var job := db.jobs[lease.scan];
      held := job.state.Running? && job.hold.Some? && job.hold.value.owner == id
              && job.generation == lease.generation && job.hold.value.expiresAt >= db.clock;
    }

    /** Publishes the result of a scan; a row the schema refuses rolls the transaction back. */
    method Publish(db: Database, lease: T.Lease, found: seq<Hit>) returns (outcome: T.Publication)
      requires db.Valid() && lease.owner == id
      modifies db`findings, db`assets, db`events, db`jobs
      ensures (db.View(), outcome) == T.Publish(old(db.View()), lease, found)
    {
      var held := LockFenced(db, lease);
      if !held {
        return T.LeaseLost;
      }
      if db.jobs[lease.scan].purpose.Apply? {
        var saved := db.findings;
        var written := WriteFindings(db, lease.scan, found);
        if !written {
          db.findings := saved;
          return T.Rejected;
        }
      }
      db.jobs := db.jobs[lease.scan := db.jobs[lease.scan].(state := Complete, hold := None, error := None)];
      outcome := T.Published;
    }

    /** The review decisions recorded on the findings of the previous complete scan. */
    method CollectDecisions(db: Database, snapshot: nat) returns (decisions: map<T.Key, T.Decision>)
      ensures decisions == T.DecisionsBefore(db.View(), snapshot)
    {
      var previous := Newest(db.jobs, snapshot, true);
      decisions := map[];
      if previous.Some? {
        for i := 0 to |db.findings|
          invariant decisions == T.Decisions(db.findings[..i], previous.value)
        {
          var f := db.findings[i];
          DecisionsExtend(db.findings[..i], f, previous.value);
          assert db.findings[..i + 1] == db.findings[..i] + [f];
          if f.scan == previous && !f.status.Detected? && f.hit.rule.Some? {
            decisions := decisions[T.KeyOf(f.hit).value := T.Decision(f.status, f.review)];
          }
        }
        assert db.findings[..|db.findings|] == db.findings;
      }
    }

    /** Inserts one row per hit with the decision it inherits, then bumps the revision; false on a unique violation. */
    method WriteFindings(db: Database, scan: nat, found: seq<Hit>) returns (written: bool)
      requires db.Valid() && scan < |db.jobs|
      modifies db`findings, db`assets, db`events
      ensures written == T.Insertable(found, true)
      ensures written ==> db.View() == T.WriteFindings(old(db.View()), scan, found)
      ensures !written ==> db.assets == old(db.assets) && db.events == old(db.events)
    {
      var snapshot := db.jobs[scan].snapshot;
      var decisions := CollectDecisions(db, snapshot);
      written := InsertFindings(db, snapshot, scan, found, decisions);
      if written {
        var version := db.BumpRevision(db.snapshots[snapshot].asset);
        db.events := db.events + [ScanApplied(scan, version)];
      }
    }

    method InsertFindings(db: Database, snapshot: nat, scan: nat, found: seq<Hit>, decisions: map<T.Key, T.Decision>)
        returns (inserted: bool)
      modifies db`findings
      ensures inserted == T.Insertable(found, true)
      ensures inserted ==> db.findings == old(db.findings) + T.Rows(snapshot, scan, found, decisions)
    {
      ghost var rows := T.Rows(snapshot, scan, found, decisions);
      for i := 0 to |found|
        invariant db.findings == old(db.findings) + rows[..i]
        invariant forall k, n :: 0 <= k < n < i ==> !T.Collide(found[k], found[n], true)
      {
        var h := found[i];
        if exists k :: 0 <= k < i && T.Collide(found[k], h, true) {
          return false;
        }
        var decision := if h.rule.Some? && T.KeyOf(h).value in decisions then decisions[T.KeyOf(h).value]
                        else T.Decision(Detected, None);
        db.findings := db.findings + [Finding(snapshot, Some(scan), h, decision.status, decision.review)];
        assert rows[..i + 1] == rows[..i] + [rows[i]];
      }
      inserted := true;
    }

    /** Transient failures go back to the queue while attempts remain; every other failure is final and audited. */
    method Fail(db: Database, lease: T.Lease, code: ErrorCode) returns (changed: bool)
      requires lease.owner == id
      modifies db`jobs, db`events
      ensures (db.View(), changed) == T.Fail(old(db.View()), lease, code)
    {
      var requeue := T.Transient(code) && lease.attempt < T.MAX_ATTEMPTS;
      changed := LockFenced(db, lease);
      if changed && requeue {
        db.jobs := db.jobs[lease.scan := db.jobs[lease.scan].(state := Queued, hold := None)];
      } else if changed {
        db.jobs := db.jobs[lease.scan := db.jobs[lease.scan].(state := Failed, error := Some(code), hold := None)];
        db.events := db.events + [ScanGaveUp(lease.scan, code)];
      }
    }
  }
}
