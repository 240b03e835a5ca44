/** Import workers and registrations interleaved in every possible way, and what no run can break. */
module ImportRuns {
  import opened Wrappers
  import opened ImportTables

  /** A worker's lease; `began` holds the start of its processing transaction and the protection version read then. */
  datatype Worker = Worker(lease: Lease, began: Option<(nat, nat)>, finished: bool)

  datatype World = World(store: Store, workers: seq<Worker>)

  const START := World(Store(0, [], [], []), [])

  datatype Step =
    | Tick(seconds: nat)
    | Upload(id: string, tenant: string, asset: Option<nat>, name: string, ttl: nat)
    | Stage(session: nat)
    | Configure(session: nat)
    | Abort(session: nat)
    | Claim(owner: string, lease: nat, locked: set<nat>)
    | Heartbeat(worker: nat, lease: nat)
    | Begin(worker: nat)
    | Finish(worker: nat, outcome: Outcome)
    | Crash(worker: nat)
    | Register(session: nat, tenant: string, acknowledged: bool)
    | AddAsset(tenant: string, name: string)
    | ChangeProtection(changed: nat)

  function Do(w: World, step: Step): World {
    var t := w.store;
    match step
    case Tick(d) => w.(store := t.(clock := t.clock + d))
    case Upload(id, tenant, asset, name, ttl) => w.(store := ImportTables.Upload(t, id, tenant, asset, name, ttl))
    case Stage(i) => w.(store := ImportTables.Stage(t, i))
    case Configure(i) => w.(store := ImportTables.Configure(t, i))
    case Abort(i) => w.(store := ImportTables.Abort(t, i))
    case Claim(owner, seconds, locked) =>
      var (u, lease) := ImportTables.Claim(t, owner, seconds, locked);
      if lease.Some? then World(u, w.workers + [Worker(lease.value, None, false)]) else w.(store := u)
    case Heartbeat(k, seconds) =>
      if k < |w.workers| && !w.workers[k].finished then
           w.(store := ImportTables.Heartbeat(t, w.workers[k].lease, seconds).0) else w
    case Begin(k) =>
      if k < |w.workers| && !w.workers[k].finished && w.workers[k].began.None?
      then
        var began := Some((t.clock, RevisionFor(t, w.workers[k].lease.asset)));
        w.(workers := w.workers[k := w.workers[k].(began := began)])
      else w
    case Finish(k, outcome) =>
      if k < |w.workers| && !w.workers[k].finished && w.workers[k].began.Some? then
        var (started, revision) := w.workers[k].began.value;
        World(ImportTables.Finish(t, w.workers[k].lease, started, revision, outcome),
              w.workers[k := w.workers[k].(finished := true)])
      else w
    case Crash(k) => if k < |w.workers| then w.(workers := w.workers[k := w.workers[k].(finished := true)]) else w
    case Register(i, tenant, acknowledged) => w.(store := RegisterSnapshot(t, i, tenant, acknowledged).0)
    case AddAsset(tenant, name) => w.(store := ImportTables.AddAsset(t, tenant, name))
    case ChangeProtection(a) => w.(store := ImportTables.ChangeProtection(t, a))
  }

  /** Every step has its own instant. */
  function Advance(w: World): World {
    w.(store := w.store.(clock := w.store.clock + 1))
  }

  function Next(w: World, step: Step): World {
    Do(Advance(w), step)
  }

  function Run(steps: seq<Step>): World {
    if |steps| == 0 then START else Next(Run(steps[..|steps| - 1]), steps[|steps| - 1])
  }

  lemma RunExtend(steps: seq<Step>, step: Step)
    ensures Run(steps + [step]) == Next(Run(steps), step)
  {
    assert (steps + [step])[..|steps|] == steps;
  }

  // ---- versions of an asset --------------------------------------------------------------------

  function CountOf(snapshots: seq<Snapshot>, asset: nat): nat {
    if |snapshots| == 0 then 0
    else CountOf(snapshots[..|snapshots| - 1], asset) + (if snapshots[|snapshots| - 1].asset == asset then 1 else 0)
  }

  function LastOf(snapshots: seq<Snapshot>, asset: nat): (r: Option<nat>)
    ensures r.Some? ==> r.value < |snapshots| && snapshots[r.value].asset == asset
    ensures r.None? <==> forall s <- snapshots :: s.asset != asset
  {
    if |snapshots| == 0 then None
    else if snapshots[|snapshots| - 1].asset == asset then Some(|snapshots| - 1)
    else LastOf(snapshots[..|snapshots| - 1], asset)
  }

  ghost predicate Dense(snapshots: seq<Snapshot>) {
    forall k :: 0 <= k < |snapshots| ==> snapshots[k].version == CountOf(snapshots[..k], snapshots[k].asset) + 1
  }

  lemma DensePrefix(snapshots: seq<Snapshot>, n: nat)
    requires Dense(snapshots) && n <= |snapshots|
    ensures Dense(snapshots[..n])
  {
    forall k | 0 <= k < n
      ensures snapshots[..n][k].version == CountOf(snapshots[..n][..k], snapshots[..n][k].asset) + 1
    {
      assert snapshots[..n][..k] == snapshots[..k];
    }
  }

  lemma {:induction false} DenseMax(snapshots: seq<Snapshot>, asset: nat)
    requires Dense(snapshots)
    ensures MaxVersion(snapshots, asset) == CountOf(snapshots, asset)
  {
    if |snapshots| > 0 {
      DensePrefix(snapshots, |snapshots| - 1);
      DenseMax(snapshots[..|snapshots| - 1], asset);
    }
  }

  ghost predicate HasVersion(snapshots: seq<Snapshot>, asset: nat, v: nat) {
    exists k :: 0 <= k < |snapshots| && snapshots[k].asset == asset && snapshots[k].version == v
  }

  lemma {:induction false} CountGrows(snapshots: seq<Snapshot>, asset: nat, n: nat)
    requires n <= |snapshots|
    ensures CountOf(snapshots[..n], asset) <= CountOf(snapshots, asset)
  {
    if n < |snapshots| {
      var front := snapshots[..|snapshots| - 1];
      assert front[..n] == snapshots[..n];
      CountGrows(front, asset, n);
    } else {
      assert snapshots[..n] == snapshots;
    }
  }

  /** A snapshot's version counts the snapshots of its asset up to and including itself. */
  lemma VersionIsRank(snapshots: seq<Snapshot>, k: nat)
    requires Dense(snapshots) && k < |snapshots|
    ensures snapshots[k].version == CountOf(snapshots[..k + 1], snapshots[k].asset)
  {
    assert snapshots[..k + 1][..k] == snapshots[..k];
  }

  /** Later snapshots of an asset have higher versions, up to the number of its snapshots. */
  lemma VersionsClimb(snapshots: seq<Snapshot>, asset: nat, i: nat, j: nat)
    requires Dense(snapshots) && i <= j < |snapshots| && snapshots[i].asset == asset && snapshots[j].asset == asset
    ensures 1 <= snapshots[i].version <= snapshots[j].version <= CountOf(snapshots, asset)
    ensures i < j ==> snapshots[i].version < snapshots[j].version
  {
    VersionIsRank(snapshots, i);
    VersionIsRank(snapshots, j);
    assert snapshots[i].version >= 1;
    assert snapshots[j].version == CountOf(snapshots[..j], asset) + 1;
    hide Dense, CountOf;
    CountGrows(snapshots, asset, j + 1);
    if i < j {
      assert snapshots[..j][..i + 1] == snapshots[..i + 1];
      CountGrows(snapshots[..j], asset, i + 1);
    }
  }

  lemma {:induction false} EveryVersionExists(snapshots: seq<Snapshot>, asset: nat, v: nat)
    requires Dense(snapshots) && 1 <= v <= CountOf(snapshots, asset)
    ensures HasVersion(snapshots, asset, v)
  {
    var n := |snapshots| - 1;
    var front := snapshots[..n];
    if v <= CountOf(front, asset) {
      DensePrefix(snapshots, n);
      EveryVersionExists(front, asset, v);
      var k :| 0 <= k < |front| && front[k].asset == asset && front[k].version == v;
      assert snapshots[k] == front[k];
    } else {
      assert snapshots[n].asset == asset && snapshots[n].version == v;
    }
  }

  lemma {:induction false} LastVersion(snapshots: seq<Snapshot>, asset: nat)
    requires Dense(snapshots)
    ensures LastOf(snapshots, asset).None? <==> CountOf(snapshots, asset) == 0
    ensures LastOf(snapshots, asset).Some? ==>
              snapshots[LastOf(snapshots, asset).value].version == CountOf(snapshots, asset)
  {
    if |snapshots| > 0 {
      DensePrefix(snapshots, |snapshots| - 1);
      LastVersion(snapshots[..|snapshots| - 1], asset);
    }
  }

  // ---- the invariant ---------------------------------------------------------------------------

  ghost predicate SessionFits(t: Store, s: Session) {
    && s.attempts == s.generation <= MAX_ATTEMPTS
    && (s.status.Verifying? ==> s.hold.Some?)
    && (s.status.Verified? ==> s.manifest.Some?)
    && |s.id| == UUID_LENGTH && |s.tenant| == UUID_LENGTH
    && (s.status.Registered? ==>
          && s.registered.Some? && s.registered.value < |t.snapshots| && s.manifest.Some?
          && s.asset == Some(t.snapshots[s.registered.value].asset)
          && t.snapshots[s.registered.value].raw == s.manifest.value.raw
          && t.snapshots[s.registered.value].canonical == s.manifest.value.canonical)
  }

  ghost predicate SessionsFit(t: Store) {
    && (forall s <- t.sessions :: SessionFits(t, s))
    && (forall i, j :: 0 <= i < j < |t.sessions| ==> t.sessions[i].id != t.sessions[j].id)
  }

  ghost predicate AssetFits(t: Store, a: nat)
    requires a < |t.assets|
  {
    t.assets[a].versions == CountOf(t.snapshots, a) && t.assets[a].current == LastOf(t.snapshots, a)
  }

  ghost predicate RawUnique(snapshots: seq<Snapshot>) {
    forall i, j :: 0 <= i < j < |snapshots| && snapshots[i].asset == snapshots[j].asset ==>
             snapshots[i].raw != snapshots[j].raw
  }

  ghost predicate NamesUnique(assets: seq<Asset>) {
    forall i, j :: 0 <= i < j < |assets| && assets[i].tenant == assets[j].tenant ==> assets[i].name != assets[j].name
  }

  ghost predicate AssetsFit(t: Store) {
    forall a: nat :: a < |t.assets| ==> AssetFits(t, a)
  }

  ghost predicate CatalogFits(t: Store) {
    && (forall s <- t.snapshots :: s.asset < |t.assets|)
    && Dense(t.snapshots) && RawUnique(t.snapshots) && AssetsFit(t) && NamesUnique(t.assets)
  }

  ghost predicate WorkersFit(w: World) {
    && (forall k :: 0 <= k < |w.workers| ==>
          var l := w.workers[k].lease;
          l.session < |w.store.sessions| && 1 <= l.generation <= w.store.sessions[l.session].generation)
    && (forall i, j :: 0 <= i < j < |w.workers| && w.workers[i].lease.session == w.workers[j].lease.session ==>
          w.workers[i].lease.generation != w.workers[j].lease.generation)
  }

  ghost predicate Fits(w: World) {
    SessionsFit(w.store) && CatalogFits(w.store) && WorkersFit(w)
  }

  /** What time does to a session: it keeps its name, its lease generation never drops, and some states are final. */
  ghost predicate SessionMoves(a: Session, b: Session) {
    && b.id == a.id && b.tenant == a.tenant && a.generation <= b.generation
    && (a.status in {Registered, Failed} ==> b == a)
    && (a.status.Aborted? ==> b.status.Aborted? && b.generation == a.generation)
  }

  ghost predicate Evolves(a: Store, b: Store) {
    && a.clock <= b.clock && |a.sessions| <= |b.sessions| && |a.assets| <= |b.assets| && a.snapshots <= b.snapshots
    && (forall i :: 0 <= i < |a.sessions| ==> SessionMoves(a.sessions[i], b.sessions[i]))
  }
}
