/** Every committed transaction of the privacy system, as a function from the tables before it to the tables after. */
module PrivacyTransactions {
  import opened Wrappers
  import opened DetectorRules
  import opened PrivacyTables

  const MAX_ATTEMPTS := 3

  /** The settings reject shorter leases. */
  const MIN_LEASE_SECONDS := 10

  // ---- rules -----------------------------------------------------------------------------------

  function EnsureInitialized(t: Tables, tenant: string): Tables {
    if tenant in t.books then t else t.(books := t.books[tenant := SeedBook()])
  }

  function AddRule(t: Tables, tenant: string, id: string, p: Creation): Tables {
    var seeded := EnsureInitialized(t, tenant);
    match CreateRule(seeded.books[tenant], id, p)
    case Failure(_) => t
    case Success(book) =>
      seeded.(books := seeded.books[tenant := book], events := t.events + [RuleCreated(tenant, book.version)])
  }

  function ReviseRule(t: Tables, tenant: string, id: string, p: Revision): Tables {
    var seeded := EnsureInitialized(t, tenant);
    match UpdateRule(seeded.books[tenant], id, p)
    case Failure(_) => t
    case Success(book) =>
      seeded.(books := seeded.books[tenant := book], events := t.events + [RuleRevised(tenant, book.version)])
  }

  function LoadPinned(t: Tables, tenant: string): (Tables, Pinned) {
    var seeded := EnsureInitialized(t, tenant);
    (seeded, Load(seeded.books[tenant]))
  }

  // ---- asset revision counter ------------------------------------------------------------------

  function Bump(t: Tables, asset: nat): Tables
    requires asset < |t.assets|
  {
    t.(assets := t.assets[asset := t.assets[asset].(revision := t.assets[asset].revision + 1)])
  }

  // ---- scan submission -------------------------------------------------------------------------

  datatype Selection = ApplyAll | TryRule(ruleId: string, revision: nat)
  datatype ScanRefusal = ResourceNotFound | ScanInProgress

  function PurposeOf(sel: Selection): Purpose {
    if sel.ApplyAll? then Apply else Preview
  }

  /** The active job of a snapshot and purpose, if any. */
  function ActiveJob(jobs: seq<Job>, snapshot: nat, purpose: Purpose): (r: Option<nat>)
    ensures r.Some? ==> r.value < |jobs| && jobs[r.value].snapshot == snapshot
                        && jobs[r.value].purpose == purpose && Active(jobs[r.value])
    ensures r.None? ==> forall j <- jobs :: !(j.snapshot == snapshot && j.purpose == purpose && Active(j))
  {
    if |jobs| == 0 then None
    else
      var j := jobs[|jobs| - 1];
      if j.snapshot == snapshot && j.purpose == purpose && Active(j) then Some(|jobs| - 1)
      else ActiveJob(jobs[..|jobs| - 1], snapshot, purpose)
  }

  /** What a scan pins: every enabled rule to apply them, or one chosen revision, switched on, to try it. */
  function PinFor(book: Book, sel: Selection): Result<Pinned, ScanRefusal> {
    match sel
    case ApplyAll => Success(Load(book))
    case TryRule(id, revision) =>
      if exists r <- book.rows :: r.id == id && r.revision == revision then
        var rules := Select(book.rows, set r <- book.rows | r.id == id && r.revision == revision);
        var on := seq(|rules|, i requires 0 <= i < |rules| => rules[i].(body := rules[i].body.(enabled := true)));
        Success(Pin(on, book.version))
      else Failure(ResourceNotFound)
  }

  function CreateScan(t: Tables, snapshot: nat, sel: Selection): (Tables, Result<nat, ScanRefusal>)
    requires Linked(t)
  {
    if snapshot >= |t.snapshots| then (t, Failure(ResourceNotFound))
    else
      match ActiveJob(t.jobs, snapshot, PurposeOf(sel))
      case Some(n) =>
        if sel.TryRule? && !exists r <- t.jobs[n].pinned.rules :: r.id == sel.ruleId && r.revision == sel.revision
        then (t, Failure(ScanInProgress))
        else (t, Success(n))
      case None =>
        var tenant := TenantOf(t, snapshot);
        var seeded := EnsureInitialized(t, tenant);
        match PinFor(seeded.books[tenant], sel)
        case Failure(e) => (t, Failure(e))
        case Success(pin) =>
          var job := Job(snapshot, PurposeOf(sel), Queued, pin, t.clock, None, 0, 0, None);
          var queued := seeded.(jobs := t.jobs + [job]);
          (if sel.ApplyAll? then Bump(queued, AssetOf(t, snapshot)) else queued, Success(|t.jobs|))
  }

  // ---- the scan worker -------------------------------------------------------------------------

  /** What a worker remembers of a claim. */
  datatype Lease = Lease(scan: nat, owner: string, generation: nat, attempt: nat)

  predicate Claimable(j: Job, now: nat) {
    j.state.Queued? || (j.state.Running? && j.hold.Some? && j.hold.value.expiresAt < now)
  }

  /** ORDER BY created_at, scan_id LIMIT 1 SKIP LOCKED. */
  function Oldest(jobs: seq<Job>, now: nat, locked: set<nat>): (r: Option<nat>)
    ensures r.Some? ==> r.value < |jobs| && r.value !in locked && Claimable(jobs[r.value], now)
  {
    if |jobs| == 0 then None
    else
      var n := |jobs| - 1;
      var best := Oldest(jobs[..n], now, locked);
      if Claimable(jobs[n], now) && n !in locked && (best.None? || jobs[n].createdAt < jobs[best.value].createdAt)
      then Some(n) else best
  }

  function Claim(t: Tables, owner: string, seconds: nat, locked: set<nat>): (Tables, Option<Lease>) {
    match Oldest(t.jobs, t.clock, locked)
    case None => (t, None)
    case Some(n) =>
      var j := t.jobs[n];
      var claimed := j.(state := Running, hold := Some(Hold(owner, t.clock + seconds)),
                        generation := j.generation + 1, attempts := j.attempts + 1);
      (t.(jobs := t.jobs[n := claimed]), Some(Lease(n, owner, claimed.generation, claimed.attempts)))
  }

  /** The lease is the current one: state, owner, generation and expiry all match. */
  predicate Fenced(t: Tables, l: Lease) {
    && l.scan < |t.jobs|
    && var j := t.jobs[l.scan];
       j.state.Running? && j.hold.Some? && j.hold.value.owner == l.owner && j.generation == l.generation
       && j.hold.value.expiresAt >= t.clock
  }

  function Heartbeat(t: Tables, l: Lease, seconds: nat): (Tables, bool) {
    if !Fenced(t, l) then (t, false)
    else
      (t.(jobs := t.jobs[l.scan := t.jobs[l.scan].(hold := Some(Hold(l.owner, t.clock + seconds)))]), true)
  }

  datatype Key = Key(ruleId: string, revision: nat, column: string, path: string)

  function KeyOf(h: Hit): Option<Key> {
    if h.rule.None? then None else Some(Key(h.rule.value.0, h.rule.value.1, h.column, h.path))
  }

  datatype Decision = Decision(status: Status, review: Option<Review>)

  function DecisionOf(f: Finding): Decision {
    Decision(f.status, f.review)
  }

  /** The reviewed findings of one scan, by rule, revision, column and path. */
  function Decisions(findings: seq<Finding>, scan: nat): map<Key, Decision> {
    if |findings| == 0 then map[]
    else
      var f := findings[|findings| - 1];
      var earlier := Decisions(findings[..|findings| - 1], scan);
      if f.scan == Some(scan) && !f.status.Detected? && KeyOf(f.hit).Some?
      then earlier[KeyOf(f.hit).value := DecisionOf(f)] else earlier
  }

  function Inherited(h: Hit, decisions: map<Key, Decision>): Decision {
    if KeyOf(h).Some? && KeyOf(h).value in decisions then decisions[KeyOf(h).value] else Decision(Detected, None)
  }

  function Rows(snapshot: nat, scan: nat, found: seq<Hit>, decisions: map<Key, Decision>): (r: seq<Finding>)
    ensures |r| == |found|
  {
    seq(|found|, i requires 0 <= i < |found| =>
      var d := Inherited(found[i], decisions);
      Finding(snapshot, Some(scan), found[i], d.status, d.review))
  }

  /** Two hits that would get the same finding id or, within a scan, break the uniqueness of rule identities. */
  predicate Collide(a: Hit, b: Hit, inScan: bool) {
    && a.column == b.column && a.path == b.path
    && ((a.code == b.code && a.detectorRevision == b.detectorRevision) || (inScan && a.rule.Some? && a.rule == b.rule))
  }

  predicate Insertable(found: seq<Hit>, inScan: bool) {
    forall i, j :: 0 <= i < j < |found| ==> !Collide(found[i], found[j], inScan)
  }

  datatype Publication = Published | LeaseLost | Rejected

  function DecisionsBefore(t: Tables, snapshot: nat): map<Key, Decision> {
    match Newest(t.jobs, snapshot, true)
    case None => map[]
    case Some(previous) => Decisions(t.findings, previous)
  }

  /** Findings, revision bump and audit event of an APPLY publication; the job itself is still RUNNING. */
  function WriteFindings(t: Tables, scan: nat, found: seq<Hit>): Tables
    requires Linked(t) && scan < |t.jobs|
  {
    var snapshot := t.jobs[scan].snapshot;
    var rows := Rows(snapshot, scan, found, DecisionsBefore(t, snapshot));
    var asset := AssetOf(t, snapshot);
    Bump(t.(findings := t.findings + rows, events := t.events + [ScanApplied(scan, t.assets[asset].revision + 1)]),
         asset)
  }

  function Publish(t: Tables, l: Lease, found: seq<Hit>): (Tables, Publication)
    requires Linked(t)
  {
    if !Fenced(t, l) then (t, LeaseLost)
    else
      var apply := t.jobs[l.scan].purpose.Apply?;
      if apply && !Insertable(found, true) then (t, Rejected)
      else
        var written := if apply then WriteFindings(t, l.scan, found) else t;
        var done := t.jobs[l.scan].(state := Complete, hold := None, error := None);
        (written.(jobs := t.jobs[l.scan := done]), Published)
  }

  predicate Transient(code: ErrorCode) {
    code.StorageUnavailable? || code.ScanFailed?
  }

  function Fail(t: Tables, l: Lease, code: ErrorCode): (Tables, bool) {
    if !Fenced(t, l) then (t, false)
    else if Transient(code) && l.attempt < MAX_ATTEMPTS then
      (t.(jobs := t.jobs[l.scan := t.jobs[l.scan].(state := Queued, hold := None)]), true)
    else
      var failed := t.jobs[l.scan].(state := Failed, error := Some(code), hold := None);
      (t.(jobs := t.jobs[l.scan := failed], events := t.events + [ScanGaveUp(l.scan, code)]), true)
  }

  // ---- reviews, declarations, policy -----------------------------------------------------------

  datatype ReviewRefusal = FindingNotFound | StatusConflict

  function UpdateStatus(t: Tables, finding: nat, expected: Status, confirm: bool, reviewer: string, reason: string)
    : (Tables, Option<ReviewRefusal>)
    requires Linked(t)
  {
    if finding >= |t.findings| then (t, Some(FindingNotFound))
    else
      var f := t.findings[finding];
      if f.status != expected then (t, Some(StatusConflict))
      else
        var next := if confirm then Confirmed else Dismissed;
        var review := Review(reviewer, reason, t.clock);
        (Bump(t.(findings := t.findings[finding := f.(status := next, review := Some(review))],
                 events := t.events + [StatusChanged(finding, f.status, next, review)]),
              AssetOf(t, f.snapshot)), None)
  }

  /** One change of a declaration batch: a category, or None to withdraw the declaration. */
  datatype Change = Change(column: string, category: Option<Category>)
  datatype ClassifyRefusal = NoSuchSnapshot | UnknownColumn | VersionConflict

  function Declare(declared: map<string, Category>, changes: seq<Change>): map<string, Category>
    decreases |changes|
  {
    if |changes| == 0 then declared
    else
      var c := changes[0];
      Declare(if c.category.None? then declared - {c.column} else declared[c.column := c.category.value], changes[1..])
  }

  function ChangeEvents(asset: nat, declared: map<string, Category>, changes: seq<Change>): seq<Event>
    decreases |changes|
  {
    if |changes| == 0 then []
    else
      var c := changes[0];
      var before := if c.column in declared then Some(declared[c.column]) else None;
      [ClassificationChanged(asset, c.column, before, c.category)] +
      ChangeEvents(asset, Declare(declared, [c]), changes[1..])
  }

  function Classify(t: Tables, asset: nat, snapshot: nat, expectedVersion: nat, changes: seq<Change>)
    : (Tables, Option<ClassifyRefusal>)
    requires Linked(t)
  {
    if asset >= |t.assets| || snapshot >= |t.snapshots| || t.snapshots[snapshot].asset != asset then
      (t, Some(NoSuchSnapshot))
    else if exists c <- changes :: c.column !in t.snapshots[snapshot].columns then (t, Some(UnknownColumn))
    else if t.assets[asset].revision != expectedVersion then (t, Some(VersionConflict))
    else
      var a := t.assets[asset];
      (Bump(t.(assets := t.assets[asset := a.(declared := Declare(a.declared, changes))],
               events := t.events + ChangeEvents(asset, a.declared, changes)), asset), None)
  }

  const ROLES: seq<string> :=
    ["WORKSPACE_ADMIN", "DATA_OWNER", "DATA_STEWARD", "DATA_ENGINEER", "BUSINESS_VIEWER", "VIEWER_UNPRIVILEGED"]

  /** Categories some role sees fully masked. */
  function MaskedCategories(p: Policies): set<Category> {
    set k <- p | p[k].FullMask? :: k.0
  }

  /** Every active role is to see the given categories fully masked, and nobody any other; other strategies stay. */
  function Remask(p: Policies, categories: seq<Category>): Policies {
    var rows := set c <- categories, r <- ROLES :: (c, r);
    map k <- p.Keys + rows | k in rows || !p[k].FullMask? :: if k in rows then FullMask else p[k]
  }

  function SetPolicy(t: Tables, asset: nat, expectedVersion: nat, categories: seq<Category>): (Tables, bool) {
    if asset >= |t.assets| || t.assets[asset].revision != expectedVersion then (t, false)
    else
      var policies := t.assets[asset].policies;
      (Bump(t.(assets := t.assets[asset := t.assets[asset].(policies := Remask(policies, categories))],
               events := t.events + [PolicyChanged(asset, MaskedCategories(policies), (set c <- categories),
                                                   expectedVersion + 1)]), asset), true)
  }

  // ---- registration of an imported snapshot, as far as protection sees it -----------------------

  /** ON CONFLICT DO NOTHING: a hit that collides with one already inserted is dropped. */
  function FirstOfEach(found: seq<Hit>, inScan: bool): (r: seq<Hit>)
    ensures Insertable(r, inScan)
  {
    if |found| == 0 then []
    else
      var earlier := FirstOfEach(found[..|found| - 1], inScan);
      var h := found[|found| - 1];
      if exists e <- earlier :: Collide(e, h, inScan) then earlier else earlier + [h]
  }

  /** The new snapshot, under its asset or a new one; None when the asset is not the tenant's. */
  function AddSnapshot(t: Tables, tenant: string, target: Option<nat>, columns: seq<string>, importScan: ImportScan)
    : Option<Tables>
    requires Linked(t)
  {
    match target
    case Some(a) =>
      if a < |t.assets| && t.assets[a].tenant == tenant
      then Some(t.(snapshots := t.snapshots + [Snapshot(a, columns, importScan)])) else None
    case None =>
      Some(t.(assets := t.assets + [Asset(tenant, 0, map[], map[])],
              snapshots := t.snapshots + [Snapshot(|t.assets|, columns, importScan)]))
  }

  /** The import's findings, undecided. */
  function AddFindings(t: Tables, snapshot: nat, scan: Option<nat>, hits: seq<Hit>): Tables {
    var rows := seq(|hits|, i requires 0 <= i < |hits| => Finding(snapshot, scan, hits[i], Detected, None));
    t.(findings := t.findings + rows)
  }

  /** The import's own scan, recorded as a complete APPLY job when the manifest carries its pin. */
  function AddImportJob(t: Tables, snapshot: nat, pin: Option<Pinned>): (Tables, Option<nat>) {
    match pin
    case None => (t, None)
    case Some(p) =>
         (t.(jobs := t.jobs + [Job(snapshot, Apply, Complete, p, t.clock, None, 0, 0, None)]), Some(|t.jobs|))
  }

  function Register(t: Tables, tenant: string, target: Option<nat>, columns: seq<string>, importScan: ImportScan,
                    pin: Option<Pinned>, found: seq<Hit>): (Tables, Option<nat>)
    requires Linked(t)
  {
    match AddSnapshot(t, tenant, target, columns, importScan)
    case None => (t, None)
    case Some(added) =>
      var n := |t.snapshots|;
      var (scanned, scan) := AddImportJob(added, n, pin);
      (AddFindings(scanned, n, scan, FirstOfEach(found, scan.Some?)), Some(n))
  }
}
