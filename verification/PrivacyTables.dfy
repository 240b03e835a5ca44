/**
 The rows behind privacy detection and output protection, and the resolver that reads them.
 Row numbers stand for the UUIDs the database mints; `clock` is now() of the transaction at hand.
 */
module PrivacyTables {
  import opened Wrappers
  import opened DetectorRules

  datatype JobState = Queued | Running | Complete | Failed
  datatype Purpose = Apply | Preview
  datatype ErrorCode =
    | RuleInvalid | ReimportRequired | ObjectChanged | StorageUnavailable | ScanLimitExceeded | ScanFailed

  datatype Hold = Hold(owner: string, expiresAt: nat)
  datatype Job = Job(snapshot: nat, purpose: Purpose, state: JobState, pinned: Pinned, createdAt: nat,
                     hold: Option<Hold>, generation: nat, attempts: nat, error: Option<ErrorCode>)

  datatype Status = Detected | Confirmed | Dismissed
  datatype Review = Review(reviewer: string, reason: string, at: nat)

  /** One finding as the scanner reports it; `rule` is the rule id and revision, absent for default detectors. */
  datatype Hit = Hit(column: string, path: string, category: Category, code: string, detectorRevision: string,
                     rule: Option<(string, nat)>)
  datatype Finding = Finding(snapshot: nat, scan: Option<nat>, hit: Hit, status: Status, review: Option<Review>)

  datatype Strategy = FullMask | PartialMask | HashSha256 | Tokenize | Plaintext

  /** The protection policies of an asset, by category and role. */
  type Policies = map<(Category, string), Strategy>

  /** `revision` is the asset_protection_revisions row, where an absent row reads as 0. */
  datatype Asset = Asset(tenant: string, revision: nat, declared: map<string, Category>, policies: Policies)

  /** The import-time scan recorded in a manifest, for snapshots older than scan jobs. */
  datatype ImportScan = Unavailable | Recorded(configVersion: Option<nat>)
  datatype Snapshot = Snapshot(asset: nat, columns: seq<string>, importScan: ImportScan)

  datatype Event =
    | RuleCreated(tenant: string, version: nat)
    | RuleRevised(tenant: string, version: nat)
    | ScanApplied(scan: nat, version: nat)
    | ScanGaveUp(scan: nat, code: ErrorCode)
    | StatusChanged(finding: nat, before: Status, after: Status, review: Review)
    | ClassificationChanged(asset: nat, column: string, was: Option<Category>, now: Option<Category>)
    | PolicyChanged(asset: nat, masked: set<Category>, masks: set<Category>, version: nat)

  datatype Tables = Tables(clock: nat, books: map<string, Book>, assets: seq<Asset>, snapshots: seq<Snapshot>,
                           jobs: seq<Job>, findings: seq<Finding>, events: seq<Event>)

  const EMPTY := Tables(0, map[], [], [], [], [], [])

  /** The foreign keys of the schema. */
  ghost predicate Linked(t: Tables) {
    && (forall s <- t.snapshots :: s.asset < |t.assets|)
    && (forall j <- t.jobs :: j.snapshot < |t.snapshots|)
    && (forall f <- t.findings :: f.snapshot < |t.snapshots| && (f.scan.Some? ==> f.scan.value < |t.jobs|))
  }

  function AssetOf(t: Tables, snapshot: nat): (a: nat)
    requires Linked(t) && snapshot < |t.snapshots|
    ensures a < |t.assets|
  {
    t.snapshots[snapshot].asset
  }

  function TenantOf(t: Tables, snapshot: nat): string
    requires Linked(t) && snapshot < |t.snapshots|
  {
    t.assets[AssetOf(t, snapshot)].tenant
  }

  // ---- latest jobs -----------------------------------------------------------------------------

  predicate Candidate(j: Job, snapshot: nat, completeOnly: bool) {
    j.snapshot == snapshot && j.purpose.Apply? && (completeOnly ==> j.state.Complete?)
  }

  /** ORDER BY created_at DESC, scan_id DESC LIMIT 1 over the APPLY jobs of a snapshot. */
  function Newest(jobs: seq<Job>, snapshot: nat, completeOnly: bool): (r: Option<nat>)
    ensures r.Some? ==> r.value < |jobs| && Candidate(jobs[r.value], snapshot, completeOnly)
  {
    if |jobs| == 0 then None
    else
      var n := |jobs| - 1;
      var best := Newest(jobs[..n], snapshot, completeOnly);
      if Candidate(jobs[n], snapshot, completeOnly) && (best.None? || jobs[best.value].createdAt <= jobs[n].createdAt)
      then Some(n) else best
  }

  predicate Active(j: Job) {
    j.state.Queued? || j.state.Running?
  }

  // ---- protection resolver ---------------------------------------------------------------------

  predicate Sensitive(c: Category) {
    !c.StandardData?
  }

  /** Findings that count: confirmed ones from any scan, and those of the newest complete scan (or of no scan). */
  predicate Counts(t: Tables, f: Finding) {
    f.status.Confirmed? || f.scan == Newest(t.jobs, f.snapshot, true)
  }

  predicate Flags(t: Tables, f: Finding, snapshot: nat, column: string) {
    f.snapshot == snapshot && f.hit.column == column && !f.status.Dismissed? && Counts(t, f)
  }

  predicate DetectedColumn(t: Tables, snapshot: nat, column: string) {
    exists f <- t.findings :: Flags(t, f, snapshot, column)
  }

  /**
   State of the newest APPLY job, else of the import-time scan (None: unavailable), and whether its rules are stale.
   */
  function ScanState(t: Tables, snapshot: nat): (Option<JobState>, bool)
    requires Linked(t) && snapshot < |t.snapshots|
  {
    var tenant := TenantOf(t, snapshot);
    match Newest(t.jobs, snapshot, false)
    case Some(n) =>
      var current := if tenant in t.books then t.books[tenant].version else 0;
      (Some(t.jobs[n].state), t.jobs[n].state.Complete? && t.jobs[n].pinned.configVersion != current)
    case None =>
      match t.snapshots[snapshot].importScan
      case Unavailable => (None, false)
      case Recorded(None) => (Some(Complete), false)
      case Recorded(Some(pinned)) => (Some(Complete), tenant in t.books && t.books[tenant].version != pinned)
  }

  predicate Verified(t: Tables, snapshot: nat)
    requires Linked(t) && snapshot < |t.snapshots|
  {
    var (state, stale) := ScanState(t, snapshot);
    state == Some(Complete) && !stale
  }

  predicate DeclaredSensitive(t: Tables, snapshot: nat, column: string)
    requires Linked(t) && snapshot < |t.snapshots|
  {
    var declared := t.assets[AssetOf(t, snapshot)].declared;
    column in declared && Sensitive(declared[column])
  }

  /** The columns that must be masked on output. */
  function Protected(t: Tables, snapshot: nat): set<string>
    requires Linked(t) && snapshot < |t.snapshots|
  {
    set c <- t.snapshots[snapshot].columns |
      DetectedColumn(t, snapshot, c) || DeclaredSensitive(t, snapshot, c) || !Verified(t, snapshot)
  }

  function PolicyVersion(t: Tables, snapshot: nat): nat
    requires Linked(t) && snapshot < |t.snapshots|
  {
    t.assets[AssetOf(t, snapshot)].revision
  }

  function ConfigVersion(t: Tables, tenant: string): Option<nat> {
    if tenant in t.books then Some(t.books[tenant].version) else None
  }
}
