/**
 The whole privacy system: the tables, and what its clients hold between transactions (claimed leases, rule pins of
 running imports, exports in progress). A step is one committed transaction, a scan starting, a crash, or time passing;
 a step that is not enabled changes nothing but the time.
 */
module PrivacySystem {
  import opened Wrappers
  import opened DetectorRules
  import opened PrivacyTables
  import opened PrivacyTransactions

  /** A worker's progress on a claimed job: claimed, past the attempt limit and scanning, or done with it. */
  datatype Phase = Claimed | Scanning | Finished

  datatype Held = Held(lease: Lease, phase: Phase, scanned: bool, published: bool)
  datatype ImportPin = ImportPin(tenant: string, pinned: Pinned)

  datatype ExportPhase = Streaming | Released | Refused
  /** A masked export: what was resolved when it began, and what became of it. */
  datatype Export = Export(snapshot: nat, version: nat, masked: set<string>, phase: ExportPhase)

  datatype World = World(db: Tables, workers: seq<Held>, pins: seq<ImportPin>, exports: seq<Export>)

  const START := World(EMPTY, [], [], [])

  datatype Step =
    | Tick(seconds: nat)
    | Initialize(tenant: string)
    | AddRule(tenant: string, id: string, creation: Creation)
    | ReviseRule(tenant: string, id: string, revision: Revision)
    | CreateScan(snapshot: nat, selection: Selection)
    | Claim(owner: string, lease: nat, locked: set<nat>)
    | Heartbeat(worker: nat, lease: nat)
    | BeginScan(worker: nat)
    | Publish(worker: nat, found: seq<Hit>)
    | Fail(worker: nat, code: ErrorCode)
    | Crash(worker: nat)
    | UpdateStatus(finding: nat, expected: Status, confirm: bool, reviewer: string, reason: string)
    | Classify(asset: nat, snapshot: nat, expectedVersion: nat, changes: seq<Change>)
    | SetPolicy(asset: nat, expectedVersion: nat, categories: seq<Category>)
    | PinForImport(tenant: string)
    | Register(tenant: string, target: Option<nat>, columns: seq<string>, importScan: ImportScan, pin: Option<nat>,
               found: seq<Hit>)
    | BeginExport(snapshot: nat)
    | FinishExport(index: nat)

  // ---- client steps ----------------------------------------------------------------------------

  /** process_job gives up unscanned past the attempt limit; a failed or refused scan ends in _fail. */
  predicate MayFail(h: Held, code: ErrorCode) {
    h.phase.Scanning? || (h.phase.Claimed? && h.lease.attempt > MAX_ATTEMPTS && code.ScanFailed?)
  }

  function DoClaim(w: World, owner: string, seconds: nat, locked: set<nat>): World {
    var (db, lease) := PrivacyTransactions.Claim(w.db, owner, seconds, locked);
    if lease.None? then w else w.(db := db, workers := w.workers + [Held(lease.value, Claimed, false, false)])
  }

  function DoBeginScan(w: World, i: nat): World {
    if i < |w.workers| && w.workers[i].phase.Claimed? && w.workers[i].lease.attempt <= MAX_ATTEMPTS
    then w.(workers := w.workers[i := w.workers[i].(phase := Scanning, scanned := true)]) else w
  }

  function DoPublish(w: World, i: nat, found: seq<Hit>): World
    requires Linked(w.db)
  {
    if i < |w.workers| && w.workers[i].phase.Scanning? then
      var (db, outcome) := PrivacyTransactions.Publish(w.db, w.workers[i].lease, found);
      match outcome
      case Published =>
           World(db, w.workers[i := w.workers[i].(phase := Finished, published := true)], w.pins, w.exports)
      case LeaseLost => w.(workers := w.workers[i := w.workers[i].(phase := Finished)])
      case Rejected => w
    else w
  }

  function DoFail(w: World, i: nat, code: ErrorCode): World {
    if i < |w.workers| && MayFail(w.workers[i], code) then
      w.(db := PrivacyTransactions.Fail(w.db, w.workers[i].lease, code).0,
         workers := w.workers[i := w.workers[i].(phase := Finished)])
    else w
  }

  function DoHeartbeat(w: World, i: nat, seconds: nat): World {
    if i < |w.workers| && !w.workers[i].phase.Finished?
    then w.(db := PrivacyTransactions.Heartbeat(w.db, w.workers[i].lease, seconds).0) else w
  }

  function DoRegister(w: World, tenant: string, target: Option<nat>, columns: seq<string>, importScan: ImportScan,
                      pin: Option<nat>, found: seq<Hit>): World
    requires Linked(w.db)
  {
    if pin.Some? && (pin.value >= |w.pins| || w.pins[pin.value].tenant != tenant) then w
    else
      var pinned := if pin.None? then None else Some(w.pins[pin.value].pinned);
      w.(db := PrivacyTransactions.Register(w.db, tenant, target, columns, importScan, pinned, found).0)
  }

  function DoBeginExport(w: World, snapshot: nat): World
    requires Linked(w.db)
  {
    if snapshot < |w.db.snapshots| then
      w.(exports := w.exports + [Export(snapshot, PolicyVersion(w.db, snapshot), Protected(w.db, snapshot), Streaming)])
    else w
  }

  /** The recheck: released only if neither the policy version nor the protected set has moved. */
  function DoFinishExport(w: World, e: nat): World
    requires Linked(w.db)
  {
    if e < |w.exports| && w.exports[e].phase.Streaming? && w.exports[e].snapshot < |w.db.snapshots| then
      var x := w.exports[e];
      var same := PolicyVersion(w.db, x.snapshot) == x.version && Protected(w.db, x.snapshot) == x.masked;
      w.(exports := w.exports[e := x.(phase := if same then Released else Refused)])
    else w
  }

  // ---- steps and runs --------------------------------------------------------------------------

  /** The effect of a step at the time it takes place. */
  function Do(w: World, step: Step): World
    requires Linked(w.db)
  {
    match step
    case Tick(d) => w.(db := w.db.(clock := w.db.clock + d))
    case Initialize(tenant) => w.(db := EnsureInitialized(w.db, tenant))
    case AddRule(tenant, id, p) => w.(db := PrivacyTransactions.AddRule(w.db, tenant, id, p))
    case ReviseRule(tenant, id, p) => w.(db := PrivacyTransactions.ReviseRule(w.db, tenant, id, p))
    case CreateScan(snapshot, sel) => w.(db := PrivacyTransactions.CreateScan(w.db, snapshot, sel).0)
    case Claim(owner, seconds, locked) => DoClaim(w, owner, seconds, locked)
    case Heartbeat(i, seconds) => DoHeartbeat(w, i, seconds)
    case BeginScan(i) => DoBeginScan(w, i)
    case Publish(i, found) => DoPublish(w, i, found)
    case Fail(i, code) => DoFail(w, i, code)
    case Crash(i) => if i < |w.workers| then w.(workers := w.workers[i := w.workers[i].(phase := Finished)]) else w
    case UpdateStatus(f, expected, confirm, reviewer, reason) =>
      w.(db := PrivacyTransactions.UpdateStatus(w.db, f, expected, confirm, reviewer, reason).0)
    case Classify(asset, snapshot, version, changes) =>
      w.(db := PrivacyTransactions.Classify(w.db, asset, snapshot, version, changes).0)
    case SetPolicy(asset, version, categories) =>
         w.(db := PrivacyTransactions.SetPolicy(w.db, asset, version, categories).0)
    case PinForImport(tenant) =>
      var (db, pinned) := LoadPinned(w.db, tenant);
      w.(db := db, pins := w.pins + [ImportPin(tenant, pinned)])
    case Register(tenant, target, columns, importScan, pin, found) =>
      DoRegister(w, tenant, target, columns, importScan, pin, found)
    case BeginExport(snapshot) => DoBeginExport(w, snapshot)
    case FinishExport(e) => DoFinishExport(w, e)
  }

  /** Every step has its own instant. */
  function Advance(w: World): World {
    w.(db := w.db.(clock := w.db.clock + 1))
  }

  function Next(w: World, step: Step): World
    requires Linked(w.db)
  {
    Do(Advance(w), step)
  }
}
