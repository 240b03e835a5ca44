/** Upload sessions, assets and snapshots, and every committed transaction on them. `clock` is now(). */
module ImportTables {
  import opened Wrappers

  const MAX_ATTEMPTS := 3

  /** The settings reject shorter leases. */
  const MIN_LEASE_SECONDS := 10
  const UUID_LENGTH := 36

  datatype Status = Uploading | Staged | Verifying | Verified | Registered | Rejected | Failed | Aborted
  datatype Reason =
    | ImportExpired | RetryExhausted | VersioningRequired | InternalWorkerError | PolicyChanged | BadColumnNames
    | OtherInspection | UserAborted

  /** What inspection found: hashes of the raw and the canonical object, and whether a warning must be acknowledged. */
  datatype Manifest = Manifest(raw: string, canonical: string, location: string, singleColumn: bool)

  datatype Hold = Hold(owner: string, expiresAt: nat)
  datatype Session = Session(id: string, tenant: string, asset: Option<nat>, name: string, createdAt: nat,
                             expiresAt: nat,
                             status: Status, error: Option<Reason>, hold: Option<Hold>, generation: nat, attempts: nat,
                             manifest: Option<Manifest>, registered: Option<nat>)

  /** `revision` is the asset's protection version. */
  datatype Asset = Asset(tenant: string, name: string, revision: nat, versions: nat, current: Option<nat>)
  datatype Snapshot = Snapshot(asset: nat, version: nat, raw: string, canonical: string)

  datatype Store = Store(clock: nat, sessions: seq<Session>, assets: seq<Asset>, snapshots: seq<Snapshot>)

  // ---- session life cycle ----------------------------------------------------------------------

  predicate Open(t: Store, i: nat) {
    i < |t.sessions| && t.sessions[i].expiresAt >= t.clock
  }

  function Move(t: Store, i: nat, status: Status, error: Option<Reason>): Store
    requires i < |t.sessions|
  {
    t.(sessions := t.sessions[i := t.sessions[i].(status := status, error := error)])
  }

  /** Upload ids are primary keys; a target asset is one of the tenant's. */
  function Upload(t: Store, id: string, tenant: string, asset: Option<nat>, name: string, ttl: nat): Store {
    if |id| != UUID_LENGTH || |tenant| != UUID_LENGTH || (exists s <- t.sessions :: s.id == id) then t
    else if asset.Some? && !(asset.value < |t.assets| && t.assets[asset.value].tenant == tenant) then t
    else
      t.(sessions := t.sessions + [Session(id, tenant, asset, name, t.clock, t.clock + ttl, Uploading, None, None, 0, 0,
                                           None, None)])
  }

  function Stage(t: Store, i: nat): Store {
    if Open(t, i) && t.sessions[i].status.Uploading? then Move(t, i, Staged, t.sessions[i].error) else t
  }

  /** A new column mapping sends a verified session, or one rejected for its column names, back to the queue. */
  function Configure(t: Store, i: nat): Store {
    if Open(t, i) && (t.sessions[i].status.Verified?
                      || (t.sessions[i].status.Rejected? && t.sessions[i].error == Some(BadColumnNames)))
    then Move(t, i, Staged, None) else t
  }

  function Abort(t: Store, i: nat): Store {
    if i < |t.sessions| && t.sessions[i].status in {Uploading, Staged, Verified, Aborted}
    then Move(t, i, Aborted, Some(UserAborted)) else t
  }

  // ---- the import queue ------------------------------------------------------------------------

  predicate Claimable(s: Session, now: nat) {
    s.status.Staged? || (s.status.Verifying? && s.hold.Some? && s.hold.value.expiresAt < now)
  }

  function Oldest(sessions: seq<Session>, now: nat, locked: set<nat>): (r: Option<nat>)
    ensures r.Some? ==> r.value < |sessions| && r.value !in locked && Claimable(sessions[r.value], now)
  {
    if |sessions| == 0 then None
    else
      var n := |sessions| - 1;
      var best := Oldest(sessions[..n], now, locked);
      if Claimable(sessions[n], now) && n !in locked
         && (best.None? || sessions[n].createdAt < sessions[best.value].createdAt)
      then Some(n) else best
  }

  datatype Lease = Lease(session: nat, owner: string, generation: nat, asset: Option<nat>)

  /** An expired session or one out of attempts is failed instead of claimed. */
  function Claim(t: Store, owner: string, seconds: nat, locked: set<nat>): (Store, Option<Lease>) {
    match Oldest(t.sessions, t.clock, locked)
    case None => (t, None)
    case Some(i) =>
      var s := t.sessions[i];
      if s.expiresAt < t.clock then (Move(t, i, Failed, Some(ImportExpired)), None)
      else if s.attempts + 1 > MAX_ATTEMPTS then (Move(t, i, Failed, Some(RetryExhausted)), None)
      else
        var claimed := s.(status := Verifying, hold := Some(Hold(owner, t.clock + seconds)),
                          generation := s.generation + 1, attempts := s.attempts + 1);
        (t.(sessions := t.sessions[i := claimed]), Some(Lease(i, owner, claimed.generation, s.asset)))
  }

  /** The fence of every write of a lease; `now` is the start of the transaction that writes. */
  predicate Fenced(t: Store, l: Lease, now: nat) {
    && l.session < |t.sessions|
    && var s := t.sessions[l.session];
       s.status.Verifying? && s.hold.Some? && s.hold.value.owner == l.owner && s.generation == l.generation
       && s.hold.value.expiresAt >= now
  }

  function Heartbeat(t: Store, l: Lease, seconds: nat): (Store, bool) {
    if Fenced(t, l, t.clock) then
      (t.(sessions := t.sessions[l.session := t.sessions[l.session].(hold := Some(Hold(l.owner, t.clock + seconds)))]),
       true)
    else (t, false)
  }

  /** The protection version of the asset a lease imports into, 0 without one. */
  function RevisionFor(t: Store, asset: Option<nat>): nat {
    if asset.Some? && asset.value < |t.assets| then t.assets[asset.value].revision else 0
  }

  datatype Outcome =
    | Normalized(manifest: Manifest)
    | InspectionFailed(reason: Reason)
    | Unexpected
    | NoVersioning

  /** Status and error an outcome asks for; a policy that moved during inspection turns success into a rejection. */
  function Verdict(t: Store, l: Lease, revision: nat, outcome: Outcome): (Status, Option<Reason>) {
    match outcome
    case Normalized(_) =>
      if l.asset.Some? && RevisionFor(t, l.asset) != revision then (Rejected, Some(PolicyChanged)) else (Verified, None)
    case InspectionFailed(reason) => (Rejected, Some(reason))
    case Unexpected => (Failed, Some(InternalWorkerError))
    case NoVersioning => (Failed, Some(VersioningRequired))
  }

  /** The end of process_session, in a transaction that started at `started`. */
  function Finish(t: Store, l: Lease, started: nat, revision: nat, outcome: Outcome): Store {
    if !Fenced(t, l, started) then t
    else
      var (status, error) := Verdict(t, l, revision, outcome);
      var s := t.sessions[l.session].(status := status, error := error);
      t.(sessions := t.sessions[l.session := if status.Verified? then s.(manifest := Some(outcome.manifest)) else s])
  }

  // ---- decimal numbers and object prefixes -----------------------------------------------------

  function Digit(n: nat): char
    requires n < 10
  {
    '0' + n as char
  }

  function Decimal(n: nat): (s: string)
    ensures |s| >= 1
  {
    if n < 10 then [Digit(n)] else Decimal(n / 10) + [Digit(n % 10)]
  }

  /** Where a lease writes its objects. */
  function Prefix(tenant: string, upload: string, generation: nat): string {
    "snapshots/" + tenant + "/" + upload + "/attempt-" + Decimal(generation)
  }

  // ---- registration ----------------------------------------------------------------------------

  datatype Refusal =
    | NotFound | Expired | StateConflict | WarningNotAcknowledged | Malformed | NameConflict | MappingConflict

  /** COALESCE(MAX(version_number), 0) over the snapshots of an asset. */
  function MaxVersion(snapshots: seq<Snapshot>, asset: nat): nat {
    if |snapshots| == 0 then 0
    else
      var n := |snapshots| - 1;
      var before := MaxVersion(snapshots[..n], asset);
      if snapshots[n].asset == asset && snapshots[n].version > before then snapshots[n].version else before
  }

  /** The snapshot of an asset with a given raw hash, if any. */
  function SameRaw(snapshots: seq<Snapshot>, asset: nat, raw: string): (r: Option<nat>)
    ensures r.Some? ==> r.value < |snapshots| && snapshots[r.value].asset == asset && snapshots[r.value].raw == raw
    ensures r.None? ==> forall s <- snapshots :: !(s.asset == asset && s.raw == raw)
  {
    if |snapshots| == 0 then None
    else
      var n := |snapshots| - 1;
      if snapshots[n].asset == asset && snapshots[n].raw == raw then Some(n) else SameRaw(snapshots[..n], asset, raw)
  }

  predicate NameTaken(assets: seq<Asset>, tenant: string, name: string) {
    exists a <- assets :: a.tenant == tenant && a.name == name
  }

  function Mark(t: Store, i: nat, asset: nat, snapshot: nat): Store
    requires i < |t.sessions|
  {
    t.(sessions := t.sessions[i := t.sessions[i].(status := Registered, asset := Some(asset),
                                                  registered := Some(snapshot))])
  }

  /** Steps 3 to 7: deduplicate by raw hash, or append the next version and make it current. */
  function AppendVersion(t: Store, i: nat, asset: nat, m: Manifest): (Store, Result<nat, Refusal>)
    requires i < |t.sessions| && asset < |t.assets|
  {
    match SameRaw(t.snapshots, asset, m.raw)
    case Some(n) =>
      if t.snapshots[n].canonical == m.canonical then (Mark(t, i, asset, n), Success(n))
         else (t, Failure(MappingConflict))
    case None =>
      var n := |t.snapshots|;
      var row := Snapshot(asset, MaxVersion(t.snapshots, asset) + 1, m.raw, m.canonical);
      var a := t.assets[asset].(current := Some(n), versions := t.assets[asset].versions + 1);
      (Mark(t.(snapshots := t.snapshots + [row], assets := t.assets[asset := a]), i, asset, n), Success(n))
  }

  /** Why registration is refused before it looks at assets. */
  function Precheck(t: Store, i: nat, tenant: string, acknowledged: bool): Option<Refusal> {
    if i >= |t.sessions| || t.sessions[i].tenant != tenant then Some(NotFound)
    else
      var s := t.sessions[i];
      if s.expiresAt < t.clock then Some(Expired)
      else if !s.status.Verified? then Some(StateConflict)
      else if s.manifest.Some? && s.manifest.value.singleColumn && !acknowledged then Some(WarningNotAcknowledged)
      else if s.manifest.None? then Some(Malformed)
      else None
  }

  /** A session that is registered already; registering it again only reads. */
  predicate AlreadyRegistered(t: Store, i: nat, tenant: string) {
    && i < |t.sessions| && t.sessions[i].tenant == tenant && t.sessions[i].status.Registered?
    && t.sessions[i].registered.Some? && t.sessions[i].registered.value < |t.snapshots|
  }

  function RegisterSnapshot(t: Store, i: nat, tenant: string, acknowledged: bool): (Store, Result<nat, Refusal>) {
    if AlreadyRegistered(t, i, tenant) then (t, Success(t.sessions[i].registered.value))
    else
      match Precheck(t, i, tenant, acknowledged)
      case Some(e) => (t, Failure(e))
      case None =>
        var s := t.sessions[i];
        match s.asset
        case None =>
          if NameTaken(t.assets, tenant, s.name) then (t, Failure(NameConflict))
          else AppendVersion(t.(assets := t.assets + [Asset(tenant, s.name, 0, 0, None)]), i, |t.assets|,
                             s.manifest.value)
        case Some(a) =>
          if a >= |t.assets| || t.assets[a].tenant != tenant then (t, Failure(NotFound))
          else AppendVersion(t, i, a, s.manifest.value)
  }

  // ---- assets ----------------------------------------------------------------------------------

  function AddAsset(t: Store, tenant: string, name: string): Store {
    if NameTaken(t.assets, tenant, name) then t else t.(assets := t.assets + [Asset(tenant, name, 0, 0, None)])
  }

  /** A review, declaration, policy change or scan of the asset. */
  function ChangeProtection(t: Store, a: nat): Store {
    if a < |t.assets| then t.(assets := t.assets[a := t.assets[a].(revision := t.assets[a].revision + 1)]) else t
  }
}
