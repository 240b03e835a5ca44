/** Import workers and snapshot registration, as they update the session, asset and snapshot rows in place. */
module ImportServices {
  import opened Wrappers
  import T = ImportTables
  import opened ImportTables

  class Rows {
    var clock: nat
    var sessions: seq<Session>
    var assets: seq<Asset>
    var snapshots: seq<Snapshot>

    ghost function View(): Store
      reads this
    {
      Store(clock, sessions, assets, snapshots)
    }

    constructor ()
      ensures View() == Store(0, [], [], [])
    {
      clock, sessions, assets, snapshots := 0, [], [], [];
    }

    method SetStatus(i: nat, status: Status, error: Option<Reason>)
      requires i < |sessions|
      modifies `sessions
      ensures View() == T.Move(old(View()), i, status, error)
    {
      sessions := sessions[i := sessions[i].(status := status, error := error)];
    }
  }

  class ImportWorker {
    const id: string
    const leaseSeconds: nat

    constructor (id: string, leaseSeconds: nat)
      ensures this.id == id && this.leaseSeconds == leaseSeconds
    {
      this.id, this.leaseSeconds := id, leaseSeconds;
    }

    /** Claims the oldest session; one that has expired or used up its attempts is failed, and nothing is claimed. */
    method ClaimNextSession(db: Rows, locked: set<nat>) returns (lease: Option<Lease>)
      modifies db`sessions
      ensures (db.View(), lease) == T.Claim(old(db.View()), id, leaseSeconds, locked)
    {
      var row := T.Oldest(db.sessions, db.clock, locked);
      if row.None? {
        return None;
      }
      var s := db.sessions[row.value];
      if s.expiresAt < db.clock {
        db.SetStatus(row.value, Failed, Some(ImportExpired));
        return None;
      }
      var nextAttempt := s.attempts + 1;
      if nextAttempt > MAX_ATTEMPTS {
        db.SetStatus(row.value, Failed, Some(RetryExhausted));
        return None;
      }
      var nextGeneration := s.generation + 1;
      s := s.(status := Verifying, hold := Some(Hold(id, db.clock + leaseSeconds)));
      s := s.(generation := nextGeneration, attempts := nextAttempt);
      db.sessions := db.sessions[row.value := s];
      lease := Some(Lease(row.value, id, nextGeneration, s.asset));
    }

    /**
     A kept lease is current for `leaseSeconds` more and not a second longer; the row keeps all but its expiry, and
     every other row is what it was. A lost lease changes nothing.
     */
    method Heartbeat(db: Rows, lease: Lease) returns (kept: bool)
      requires lease.owner == id
      modifies db`sessions
      ensures (db.View(), kept) == T.Heartbeat(old(db.View()), lease, leaseSeconds)
      ensures kept <==> T.Fenced(old(db.View()), lease, db.clock)
      ensures kept ==> forall later: nat :: T.Fenced(db.View(), lease, later) <==> later <= db.clock + leaseSeconds
      ensures kept ==> |db.sessions| == |old(db.sessions)|
                       && db.sessions[lease.session] ==
                            old(db.sessions)[lease.session].(hold := db.sessions[lease.session].hold)
                       && forall i :: 0 <= i < |db.sessions| && i != lease.session ==>
                            db.sessions[i] == old(db.sessions)[i]
      ensures !kept ==> db.sessions == old(db.sessions)
    {
      if lease.session >= |db.sessions| {
        return false;
      }
      var s := db.sessions[lease.session];
      kept := s.status.Verifying? && s.hold.Some? && s.hold.value.owner == id && s.generation == lease.generation
              && s.hold.value.expiresAt >= db.clock;
      if kept {
        db.sessions := db.sessions[lease.session := s.(hold := Some(Hold(id, db.clock + leaseSeconds)))];
      }
    }

    /** One fenced UPDATE; it touches no row when the lease has been lost. */
    method WriteFenced(db: Rows, lease: Lease, started: nat, status: Status, error: Option<Reason>,
                       manifest: Option<Manifest>)
      modifies db`sessions
      ensures db.View() == (if T.Fenced(old(db.View()), lease, started) then
                              var s := old(db.sessions)[lease.session].(status := status, error := error);
                              old(db.View()).(sessions := old(db.sessions)[lease.session :=
                                if manifest.Some? then s.(manifest := manifest) else s])
                            else old(db.View()))
    {
      if lease.session < |db.sessions| {
        var s := db.sessions[lease.session];
        if s.status.Verifying? && s.hold.Some? && s.hold.value.owner == lease.owner && s.generation == lease.generation
           && s.hold.value.expiresAt >= started {
          s := s.(status := status, error := error);
          if manifest.Some? {
            s := s.(manifest := manifest);
          }
          db.sessions := db.sessions[lease.session := s];
        }
      }
    }

    /**
     The writes of process_session; `started` is now() of its transaction, `revision` the protection version it read
     first.
     */
    method RecordOutcome(db: Rows, lease: Lease, started: nat, revision: nat, outcome: Outcome)
      modifies db`sessions
      ensures db.View() == T.Finish(old(db.View()), lease, started, revision, outcome)
    {
      match outcome
      case NoVersioning => WriteFenced(db, lease, started, Failed, Some(VersioningRequired), None);
      case InspectionFailed(reason) => WriteFenced(db, lease, started, Rejected, Some(reason), None);
      case Unexpected => WriteFenced(db, lease, started, Failed, Some(InternalWorkerError), None);
      case Normalized(manifest) =>
        if lease.asset.Some? {
          var current := if lease.asset.value < |db.assets| then db.assets[lease.asset.value].revision else 0;
          if current != revision {
            WriteFenced(db, lease, started, Rejected, Some(PolicyChanged), None);
            return;
          }
        }
        WriteFenced(db, lease, started, Verified, None, Some(manifest));
    }
  }

  method RegisterSnapshot(db: Rows, i: nat, tenant: string, acknowledged: bool) returns (r: Result<nat, Refusal>)
    requires forall s <- db.snapshots :: s.asset < |db.assets|
    modifies db
    ensures (db.View(), r) == T.RegisterSnapshot(old(db.View()), i, tenant, acknowledged)
  {
    if i >= |db.sessions| || db.sessions[i].tenant != tenant {
      return Failure(NotFound);
    }
    var session := db.sessions[i];
    if session.status.Registered? && session.registered.Some? && session.registered.value < |db.snapshots| {
      return Success(session.registered.value);
    }
    if session.expiresAt < db.clock {
      return Failure(Expired);
    }
    if !session.status.Verified? {
      return Failure(StateConflict);
    }
    if session.manifest.Some? && session.manifest.value.singleColumn && !acknowledged {
      return Failure(WarningNotAcknowledged);
    }
    if session.manifest.None? {
      return Failure(Malformed);
    }
    var manifest := session.manifest.value;
    var asset;
    if session.asset.None? {
      asset := |db.assets|;
      if exists a <- db.assets :: a.tenant == tenant && a.name == session.name {
        return Failure(NameConflict);
      }
      db.assets := db.assets + [Asset(tenant, session.name, 0, 0, None)];
    } else {
      asset := session.asset.value;
      if asset >= |db.assets| || db.assets[asset].tenant != tenant {
        return Failure(NotFound);
      }
    }
    var existing := T.SameRaw(db.snapshots, asset, manifest.raw);
    if existing.Some? {
      if db.snapshots[existing.value].canonical != manifest.canonical {
        return Failure(MappingConflict);
      }
      db.sessions := db.sessions[i := session.(status := Registered, asset := Some(asset), registered := existing)];
      return Success(existing.value);
    }
    var version := T.MaxVersion(db.snapshots, asset) + 1;
    var snapshot := |db.snapshots|;
    db.snapshots := db.snapshots + [Snapshot(asset, version, manifest.raw, manifest.canonical)];
    var a := db.assets[asset];
    db.assets := db.assets[asset := a.(current := Some(snapshot), versions := a.versions + 1)];
    db.sessions := db.sessions[i := session.(status := Registered, asset := Some(asset), registered := Some(snapshot))];
    r := Success(snapshot);
  }
}

/** The protection side of a registration: the import's own scan and findings become rows of the new snapshot. */
module SnapshotProtectionRegistration {
  import opened Wrappers
  import opened DetectorRules
  import opened PrivacyTables
  import opened PrivacyDatabase
  import T = PrivacyTransactions

  lemma FirstOfEachExtend(found: seq<Hit>, h: Hit, inScan: bool)
    ensures var earlier := T.FirstOfEach(found, inScan);
            T.FirstOfEach(found + [h], inScan) ==
              if exists e <- earlier :: T.Collide(e, h, inScan) then earlier else earlier + [h]
  {
    assert (found + [h])[..|found|] == found;
  }

  function Undecided(snapshot: nat, scan: Option<nat>, hits: seq<Hit>): seq<Finding> {
    seq(|hits|, i requires 0 <= i < |hits| => Finding(snapshot, scan, hits[i], Detected, None))
  }

  lemma UndecidedExtend(snapshot: nat, scan: Option<nat>, hits: seq<Hit>, h: Hit)
    ensures Undecided(snapshot, scan, []) == []
    ensures Undecided(snapshot, scan, hits + [h]) ==
              Undecided(snapshot, scan, hits) + [Finding(snapshot, scan, h, Detected, None)]
  {
  }

  /** INSERT ... ON CONFLICT DO NOTHING, finding by finding. */
  method InsertImportFindings(db: Database, snapshot: nat, scan: Option<nat>, found: seq<Hit>)
    modifies db`findings
    ensures db.findings == old(db.findings) + Undecided(snapshot, scan, T.FirstOfEach(found, scan.Some?))
  {
    var kept: seq<Hit> := [];
    assert kept == T.FirstOfEach(found[..0], scan.Some?) && Undecided(snapshot, scan, kept) == [];
    hide T.FirstOfEach, Undecided, T.Collide;
    for i := 0 to |found|
      invariant kept == T.FirstOfEach(found[..i], scan.Some?)
      invariant db.findings == old(db.findings) + Undecided(snapshot, scan, kept)
    {
      FirstOfEachExtend(found[..i], found[i], scan.Some?);
      assert found[..i + 1] == found[..i] + [found[i]];
      if !exists e <- kept :: T.Collide(e, found[i], scan.Some?) {
        UndecidedExtend(snapshot, scan, kept, found[i]);
        kept := kept + [found[i]];
        db.findings := db.findings + [Finding(snapshot, scan, found[i], Detected, None)];
      }
    }
    assert found[..|found|] == found;
  }

  method Register(db: Database, tenant: string, target: Option<nat>, columns: seq<string>, importScan: ImportScan,
                  pin: Option<Pinned>, found: seq<Hit>) returns (r: Option<nat>)
    requires db.Valid()
    modifies db
    ensures (db.View(), r) == T.Register(old(db.View()), tenant, target, columns, importScan, pin, found)
  {
    var asset := |db.assets|;
    if target.None? {
      db.assets := db.assets + [Asset(tenant, 0, map[], map[])];
    } else {
      asset := target.value;
      if asset >= |db.assets| || db.assets[asset].tenant != tenant {
        return None;
      }
    }
    var snapshot := |db.snapshots|;
    db.snapshots := db.snapshots + [Snapshot(asset, columns, importScan)];
    var scan := None;
    if pin.Some? {
      scan := Some(|db.jobs|);
      db.jobs := db.jobs + [Job(snapshot, Apply, Complete, pin.value, db.clock, None, 0, 0, None)];
    }
    InsertImportFindings(db, snapshot, scan, found);
    r := Some(snapshot);
  }
}
