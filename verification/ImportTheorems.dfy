/** Every transaction keeps the import tables consistent; what follows for whole runs. */
module ImportTheorems {
  import opened Wrappers
  import T = ImportTables
  import opened ImportTables
  import opened ImportRuns

  ghost predicate Kept(t: Store, u: Store) {
    SessionsFit(u) && CatalogFits(u) && Evolves(t, u)
  }

  lemma NothingMoves(t: Store)
    requires SessionsFit(t) && CatalogFits(t)
    ensures Kept(t, t)
  {
  }

  lemma TimePasses(t: Store, later: nat)
    requires SessionsFit(t) && CatalogFits(t) && t.clock <= later
    ensures Kept(t, t.(clock := later))
  {
    hide Dense;
    var u := t.(clock := later);
    assert forall s <- t.sessions :: SessionFits(t, s) ==> SessionFits(u, s);
    assert forall a: nat :: a < |t.assets| && AssetFits(t, a) ==> AssetFits(u, a);
  }

  /** One session moves; nothing else does. */
  lemma SessionStep(t: Store, i: nat, s: Session)
    requires SessionsFit(t) && CatalogFits(t)
    requires i < |t.sessions| && SessionFits(t, s) && SessionMoves(t.sessions[i], s)
    ensures Kept(t, t.(sessions := t.sessions[i := s]))
  {
    hide Dense;
    var u := t.(sessions := t.sessions[i := s]);
    forall k | 0 <= k < |u.sessions|
      ensures SessionFits(u, u.sessions[k])
    {
      if k != i { assert SessionFits(t, t.sessions[k]); }
    }
    assert forall a: nat :: a < |t.assets| && AssetFits(t, a) ==> AssetFits(u, a);
  }

  lemma SessionOf(t: Store, i: nat)
    requires SessionsFit(t) && i < |t.sessions|
    ensures SessionFits(t, t.sessions[i])
  {
  }

  lemma UploadKeeps(t: Store, id: string, tenant: string, asset: Option<nat>, name: string, ttl: nat)
    requires SessionsFit(t) && CatalogFits(t)
    ensures Kept(t, T.Upload(t, id, tenant, asset, name, ttl))
  {
    hide Dense;
    var u := T.Upload(t, id, tenant, asset, name, ttl);
    if u != t {
      assert forall s <- t.sessions :: SessionFits(t, s) ==> SessionFits(u, s);
      assert forall a: nat :: a < |t.assets| && AssetFits(t, a) ==> AssetFits(u, a);
    }
  }

  lemma LifeCycleKeeps(t: Store, i: nat)
    requires SessionsFit(t) && CatalogFits(t)
    ensures Kept(t, T.Stage(t, i)) && Kept(t, T.Configure(t, i)) && Kept(t, T.Abort(t, i))
  {
    NothingMoves(t);
    if i < |t.sessions| {
      SessionOf(t, i);
      var s := t.sessions[i];
      hide SessionsFit, CatalogFits, Kept;
      if T.Stage(t, i) != t { SessionStep(t, i, s.(status := Staged)); }
      if T.Configure(t, i) != t { SessionStep(t, i, s.(status := Staged, error := None)); }
      if s.status in {Uploading, Staged, Verified, Aborted} {
        SessionStep(t, i, s.(status := Aborted, error := Some(UserAborted)));
      }
    }
  }

  lemma ClaimKeeps(t: Store, owner: string, seconds: nat, locked: set<nat>)
    requires SessionsFit(t) && CatalogFits(t)
    ensures Kept(t, T.Claim(t, owner, seconds, locked).0)
  {
    NothingMoves(t);
    var n := T.Oldest(t.sessions, t.clock, locked);
    if n.Some? {
      var i := n.value;
      SessionOf(t, i);
      var u := T.Claim(t, owner, seconds, locked).0;
      hide SessionsFit, CatalogFits, Kept;
      SessionStep(t, i, u.sessions[i]);
    }
  }

  lemma LeaseWritesKeep(t: Store, l: Lease, seconds: nat, started: nat, revision: nat, outcome: Outcome)
    requires SessionsFit(t) && CatalogFits(t)
    ensures Kept(t, T.Heartbeat(t, l, seconds).0) && Kept(t, T.Finish(t, l, started, revision, outcome))
  {
    NothingMoves(t);
    if l.session < |t.sessions| {
      SessionOf(t, l.session);
      hide SessionsFit, CatalogFits, Kept;
      if T.Fenced(t, l, t.clock) {
        SessionStep(t, l.session, T.Heartbeat(t, l, seconds).0.sessions[l.session]);
      }
      if T.Fenced(t, l, started) {
        SessionStep(t, l.session, T.Finish(t, l, started, revision, outcome).sessions[l.session]);
      }
    }
  }

  // ---- catalog ---------------------------------------------------------------------------------

  lemma {:induction false} NoSnapshotsYet(snapshots: seq<Snapshot>, asset: nat)
    requires forall s <- snapshots :: s.asset != asset
    ensures CountOf(snapshots, asset) == 0 && LastOf(snapshots, asset) == None
  {
    if |snapshots| > 0 {
      NoSnapshotsYet(snapshots[..|snapshots| - 1], asset);
    }
  }

  /** Every session fits a store with the same snapshots. */
  lemma SessionsCarryOver(t: Store, u: Store)
    requires SessionsFit(t) && u.sessions == t.sessions && t.snapshots <= u.snapshots
    ensures SessionsFit(u)
  {
    forall s | s in u.sessions
      ensures SessionFits(u, s)
    {
      assert SessionFits(t, s);
    }
  }

  lemma NewAssetName(assets: seq<Asset>, a: Asset)
    requires NamesUnique(assets) && !T.NameTaken(assets, a.tenant, a.name)
    ensures NamesUnique(assets + [a])
  {
    forall i | 0 <= i < |assets| && assets[i].tenant == a.tenant
      ensures assets[i].name != a.name
    {
      assert assets[i] in assets;
    }
  }

  lemma NewAssetFits(t: Store, a: Asset)
    requires AssetsFit(t) && (forall s <- t.snapshots :: s.asset < |t.assets|) && a.versions == 0 && a.current == None
    ensures AssetsFit(t.(assets := t.assets + [a]))
  {
    NoSnapshotsYet(t.snapshots, |t.assets|);
    hide CountOf, LastOf;
    var u := t.(assets := t.assets + [a]);
    forall b: nat | b < |u.assets|
      ensures AssetFits(u, b)
    {
      if b < |t.assets| { assert AssetFits(t, b); }
    }
  }

  lemma NewAssetCatalog(t: Store, tenant: string, name: string)
    requires CatalogFits(t) && !T.NameTaken(t.assets, tenant, name)
    ensures CatalogFits(t.(assets := t.assets + [Asset(tenant, name, 0, 0, None)]))
  {
    hide Dense, RawUnique, NamesUnique, AssetsFit, T.NameTaken;
    NewAssetName(t.assets, Asset(tenant, name, 0, 0, None));
    NewAssetFits(t, Asset(tenant, name, 0, 0, None));
  }

  lemma NewAsset(t: Store, tenant: string, name: string)
    requires SessionsFit(t) && CatalogFits(t) && !T.NameTaken(t.assets, tenant, name)
    ensures Kept(t, t.(assets := t.assets + [Asset(tenant, name, 0, 0, None)]))
  {
    var u := t.(assets := t.assets + [Asset(tenant, name, 0, 0, None)]);
    hide CatalogFits, SessionsFit, T.NameTaken;
    NewAssetCatalog(t, tenant, name);
    SessionsCarryOver(t, u);
  }

  lemma ChangeProtectionKeeps(t: Store, a: nat)
    requires SessionsFit(t) && CatalogFits(t)
    ensures Kept(t, T.ChangeProtection(t, a))
  {
    hide Dense, CountOf, LastOf;
    var u := T.ChangeProtection(t, a);
    assert forall s <- t.sessions :: SessionFits(t, s) ==> SessionFits(u, s);
    assert forall b: nat :: b < |t.assets| && AssetFits(t, b) ==> AssetFits(u, b);
  }

  function Appended(t: Store, asset: nat, m: Manifest): Store
    requires asset < |t.assets|
  {
    t.(snapshots := t.snapshots + [Snapshot(asset, MaxVersion(t.snapshots, asset) + 1, m.raw, m.canonical)],
       assets := t.assets[asset := t.assets[asset].(current := Some(|t.snapshots|),
                                                    versions := t.assets[asset].versions + 1)])
  }

  lemma AppendedDense(snapshots: seq<Snapshot>, row: Snapshot)
    requires Dense(snapshots) && row.version == MaxVersion(snapshots, row.asset) + 1
    ensures Dense(snapshots + [row])
  {
    DenseMax(snapshots, row.asset);
    var all := snapshots + [row];
    forall k | 0 <= k < |all|
      ensures all[k].version == CountOf(all[..k], all[k].asset) + 1
    {
      assert all[..k] == snapshots[..k];
      assert all[..|snapshots|] == snapshots;
    }
  }

  lemma AppendedCounts(snapshots: seq<Snapshot>, row: Snapshot, a: nat)
    ensures CountOf(snapshots + [row], a) == CountOf(snapshots, a) + (if row.asset == a then 1 else 0)
    ensures LastOf(snapshots + [row], a) == if row.asset == a then Some(|snapshots|) else LastOf(snapshots, a)
  {
    assert (snapshots + [row])[..|snapshots|] == snapshots;
  }

  lemma AppendedUnique(snapshots: seq<Snapshot>, row: Snapshot)
    requires RawUnique(snapshots)
    requires forall s <- snapshots :: !(s.asset == row.asset && s.raw == row.raw)
    ensures RawUnique(snapshots + [row])
  {
    assert forall i :: 0 <= i < |snapshots| ==> snapshots[i] in snapshots;
  }

  lemma AppendedAssets(t: Store, asset: nat, m: Manifest)
    requires asset < |t.assets| && AssetsFit(t)
    ensures AssetsFit(Appended(t, asset, m))
  {
    var u := Appended(t, asset, m);
    hide MaxVersion, CountOf, LastOf;
    forall a: nat | a < |u.assets|
      ensures AssetFits(u, a)
    {
      AppendedCounts(t.snapshots, u.snapshots[|t.snapshots|], a);
      assert AssetFits(t, a);
    }
  }

  lemma AppendedNames(t: Store, asset: nat, m: Manifest)
    requires asset < |t.assets| && NamesUnique(t.assets)
    ensures NamesUnique(Appended(t, asset, m).assets)
  {
    hide MaxVersion;
  }

  lemma AppendedCatalog(t: Store, asset: nat, m: Manifest)
    requires CatalogFits(t) && asset < |t.assets| && T.SameRaw(t.snapshots, asset, m.raw).None?
    ensures CatalogFits(Appended(t, asset, m))
  {
    var u := Appended(t, asset, m);
    var row := u.snapshots[|t.snapshots|];
    hide Dense, MaxVersion, T.SameRaw, AssetsFit, RawUnique;
    AppendedDense(t.snapshots, row);
    AppendedNames(t, asset, m);
    hide NamesUnique;
    AppendedUnique(t.snapshots, row);
    AppendedAssets(t, asset, m);
  }

  lemma AppendedKeeps(t: Store, asset: nat, m: Manifest)
    requires SessionsFit(t) && CatalogFits(t) && asset < |t.assets| && T.SameRaw(t.snapshots, asset, m.raw).None?
    ensures Kept(t, Appended(t, asset, m))
  {
    hide CatalogFits, MaxVersion, T.SameRaw, SessionsFit;
    AppendedCatalog(t, asset, m);
    SessionsCarryOver(t, Appended(t, asset, m));
  }

  lemma MarkKeeps(t: Store, i: nat, asset: nat, n: nat)
    requires SessionsFit(t) && CatalogFits(t) && i < |t.sessions| && t.sessions[i].status.Verified?
    requires t.sessions[i].manifest.Some? && n < |t.snapshots| && t.snapshots[n].asset == asset
    requires t.snapshots[n].raw == t.sessions[i].manifest.value.raw
    requires t.snapshots[n].canonical == t.sessions[i].manifest.value.canonical
    ensures Kept(t, T.Mark(t, i, asset, n))
  {
    SessionOf(t, i);
    hide SessionsFit, CatalogFits, Kept;
    SessionStep(t, i, T.Mark(t, i, asset, n).sessions[i]);
  }

  lemma AppendVersionKeeps(t: Store, i: nat, asset: nat, m: Manifest)
    requires SessionsFit(t) && CatalogFits(t) && i < |t.sessions| && asset < |t.assets|
    requires t.sessions[i].status.Verified? && t.sessions[i].manifest == Some(m)
    ensures Kept(t, T.AppendVersion(t, i, asset, m).0)
  {
    NothingMoves(t);
    hide SessionsFit, CatalogFits, Evolves, MaxVersion, T.SameRaw;
    var same := T.SameRaw(t.snapshots, asset, m.raw);
    if same.Some? {
      if t.snapshots[same.value].canonical == m.canonical { MarkKeeps(t, i, asset, same.value); }
    } else {
      AppendedKeeps(t, asset, m);
      var u := Appended(t, asset, m);
      MarkKeeps(u, i, asset, |t.snapshots|);
      EvolvesThrough(t, u, T.Mark(u, i, asset, |t.snapshots|));
      assert T.AppendVersion(t, i, asset, m).0 == T.Mark(u, i, asset, |t.snapshots|);
    }
  }

  lemma EvolvesThrough(a: Store, b: Store, c: Store)
    requires Evolves(a, b) && Evolves(b, c)
    ensures Evolves(a, c)
  {
    forall i | 0 <= i < |a.sessions|
      ensures SessionMoves(a.sessions[i], c.sessions[i])
    {
      assert SessionMoves(a.sessions[i], b.sessions[i]) && SessionMoves(b.sessions[i], c.sessions[i]);
    }
  }

  lemma RegisterKeeps(t: Store, i: nat, tenant: string, acknowledged: bool)
    requires SessionsFit(t) && CatalogFits(t)
    ensures Kept(t, T.RegisterSnapshot(t, i, tenant, acknowledged).0)
  {
    NothingMoves(t);
    hide SessionsFit, CatalogFits, Evolves, T.AppendVersion;
    if !T.AlreadyRegistered(t, i, tenant) && T.Precheck(t, i, tenant, acknowledged).None? {
      var s := t.sessions[i];
      if s.asset.None? {
        if !T.NameTaken(t.assets, tenant, s.name) {
          var u := t.(assets := t.assets + [Asset(tenant, s.name, 0, 0, None)]);
          NewAsset(t, tenant, s.name);
          AppendVersionKeeps(u, i, |t.assets|, s.manifest.value);
          EvolvesThrough(t, u, T.AppendVersion(u, i, |t.assets|, s.manifest.value).0);
        }
      } else if s.asset.value < |t.assets| && t.assets[s.asset.value].tenant == tenant {
        AppendVersionKeeps(t, i, s.asset.value, s.manifest.value);
      }
    }
  }

  // ---- steps -----------------------------------------------------------------------------------

  lemma StoreKept(w: World, step: Step)
    requires SessionsFit(w.store) && CatalogFits(w.store)
    ensures Kept(w.store, Do(w, step).store)
  {
    hide SessionsFit, CatalogFits, Kept, T.Upload, T.Stage, T.Configure, T.Abort, T.Claim, T.Heartbeat, T.Finish,
         T.RegisterSnapshot, T.ChangeProtection, T.NameTaken, T.RevisionFor;
    var t := w.store;
    NothingMoves(t);
    match step
    case Tick(d) => TimePasses(t, t.clock + d);
    case Upload(id, tenant, asset, name, ttl) => UploadKeeps(t, id, tenant, asset, name, ttl);
    case Stage(i) => LifeCycleKeeps(t, i);
    case Configure(i) => LifeCycleKeeps(t, i);
    case Abort(i) => LifeCycleKeeps(t, i);
    case Claim(owner, seconds, locked) => ClaimKeeps(t, owner, seconds, locked);
    case Heartbeat(k, seconds) =>
      if k < |w.workers| { LeaseWritesKeep(t, w.workers[k].lease, seconds, 0, 0, Unexpected); }
    case Finish(k, outcome) =>
      if k < |w.workers| && w.workers[k].began.Some? {
        LeaseWritesKeep(t, w.workers[k].lease, 0, w.workers[k].began.value.0, w.workers[k].began.value.1, outcome);
      }
    case Register(i, tenant, acknowledged) => RegisterKeeps(t, i, tenant, acknowledged);
    case AddAsset(tenant, name) => if !T.NameTaken(t.assets, tenant, name) { NewAsset(t, tenant, name); }
    case ChangeProtection(a) => ChangeProtectionKeeps(t, a);
    case _ =>
  }

  /** Only a claim hands out a lease, and its generation is new. */
  lemma WorkersSame(w: World, step: Step)
    requires !step.Claim?
    ensures |Do(w, step).workers| == |w.workers|
    ensures forall k :: 0 <= k < |w.workers| ==> Do(w, step).workers[k].lease == w.workers[k].lease
  {
    hide T.RegisterSnapshot, T.Finish, T.Upload, T.Configure, T.Abort, T.Heartbeat;
  }

  lemma ClaimedIsNew(w: World, owner: string, seconds: nat, locked: set<nat>)
    ensures var v := Do(w, Claim(owner, seconds, locked));
            && w.workers <= v.workers && |v.workers| <= |w.workers| + 1
            && (|v.workers| > |w.workers| ==>
                  var l := v.workers[|w.workers|].lease;
                  l.session < |w.store.sessions| && l.session < |v.store.sessions|
                  && l.generation == w.store.sessions[l.session].generation + 1 ==
                       v.store.sessions[l.session].generation)
  {
  }

  lemma WorkersKept(w: World, step: Step)
    requires WorkersFit(w) && Evolves(w.store, Do(w, step).store)
    ensures WorkersFit(Do(w, step))
    ensures |w.workers| <= |Do(w, step).workers|
    ensures forall k :: 0 <= k < |w.workers| ==> Do(w, step).workers[k].lease == w.workers[k].lease
  {
    var v := Do(w, step);
    if step.Claim? { ClaimedIsNew(w, step.owner, step.lease, step.locked); } else { WorkersSame(w, step); }
    hide Do;
    forall k | 0 <= k < |w.workers|
      ensures w.workers[k].lease.session < |v.store.sessions|
      ensures w.workers[k].lease.generation <= w.store.sessions[w.workers[k].lease.session].generation
      ensures w.store.sessions[w.workers[k].lease.session].generation <=
                v.store.sessions[w.workers[k].lease.session].generation
    {
      assert SessionMoves(w.store.sessions[w.workers[k].lease.session], v.store.sessions[w.workers[k].lease.session]);
    }
  }

  /** What happens between two moments of a run: the tables evolve, and leases once handed out stay what they are. */
  ghost predicate Progress(w: World, v: World) {
    && Evolves(w.store, v.store) && |w.workers| <= |v.workers|
    && forall k :: 0 <= k < |w.workers| ==> v.workers[k].lease == w.workers[k].lease
  }

  lemma StepKeeps(w: World, step: Step)
    requires Fits(w)
    ensures Fits(Next(w, step)) && Progress(w, Next(w, step))
  {
    var v := Advance(w);
    hide SessionsFit, CatalogFits, Do, Evolves;
    TimePasses(w.store, w.store.clock + 1);
    assert WorkersFit(v);
    StoreKept(v, step);
    EvolvesThrough(w.store, v.store, Do(v, step).store);
    WorkersKept(v, step);
  }

  lemma {:induction false} RunFits(steps: seq<Step>)
    ensures Fits(Run(steps))
  {
    if |steps| > 0 {
      RunFits(steps[..|steps| - 1]);
      StepKeeps(Run(steps[..|steps| - 1]), steps[|steps| - 1]);
    }
  }

  lemma {:induction false} RunEvolves(before: seq<Step>, more: seq<Step>)
    ensures Progress(Run(before), Run(before + more))
    decreases |more|
  {
    hide Run, Fits, Next, Progress;
    if |more| == 0 {
      assert before + more == before;
      NoProgress(Run(before));
    } else {
      var front := more[..|more| - 1];
      RunEvolves(before, front);
      RunFits(before + front);
      assert before + more == (before + front) + [more[|more| - 1]];
      RunExtend(before + front, more[|more| - 1]);
      StepKeeps(Run(before + front), more[|more| - 1]);
      ProgressThrough(Run(before), Run(before + front), Run(before + more));
    }
  }

  lemma NoProgress(w: World)
    ensures Progress(w, w)
  {
  }

  lemma ProgressThrough(a: World, b: World, c: World)
    requires Progress(a, b) && Progress(b, c)
    ensures Progress(a, c)
  {
    EvolvesThrough(a.store, b.store, c.store);
    hide Evolves;
  }

  // ---- leases ----------------------------------------------------------------------------------

  /** The retry budget holds in every reachable state, and attempts count leases. */
  lemma AttemptsBounded(steps: seq<Step>, i: nat)
    requires i < |Run(steps).store.sessions|
    ensures var s := Run(steps).store.sessions[i]; s.attempts <= MAX_ATTEMPTS && s.generation == s.attempts
  {
    RunFits(steps);
    SessionOf(Run(steps).store, i);
  }

  lemma {:induction false} DecimalIsInjective(m: nat, n: nat)
    requires Decimal(m) == Decimal(n)
    ensures m == n
  {
    var a, b := Decimal(m), Decimal(n);
    assert a[|a| - 1] == b[|b| - 1];
    if m >= 10 && n >= 10 {
      assert a[..|a| - 1] == Decimal(m / 10) && b[..|b| - 1] == Decimal(n / 10);
      DecimalIsInjective(m / 10, n / 10);
    }
  }

  lemma PrefixIsInjective(tenant: string, upload: string, generation: nat, tenant': string, upload': string,
                          generation': nat)
    requires |tenant| == |upload| == |tenant'| == |upload'| == UUID_LENGTH
    requires Prefix(tenant, upload, generation) == Prefix(tenant', upload', generation')
    ensures upload == upload' && generation == generation'
  {
    var p, q := Prefix(tenant, upload, generation), Prefix(tenant', upload', generation');
    var start := |"snapshots/"| + UUID_LENGTH + 1;
    var last := start + UUID_LENGTH + |"/attempt-"|;
    assert p[start..start + UUID_LENGTH] == upload && q[start..start + UUID_LENGTH] == upload';
    assert p[last..] == Decimal(generation) && q[last..] == Decimal(generation');
    DecimalIsInjective(generation, generation');
  }

  function PrefixOf(w: World, k: nat): string
    requires k < |w.workers| && w.workers[k].lease.session < |w.store.sessions|
  {
    var l := w.workers[k].lease;
    Prefix(w.store.sessions[l.session].tenant, w.store.sessions[l.session].id, l.generation)
  }

  /** No two leases ever write under the same object prefix. */
  lemma PrefixesAreUnique(steps: seq<Step>, j: nat, k: nat)
    requires j < k < |Run(steps).workers|
    ensures var w := Run(steps);
            w.workers[j].lease.session < |w.store.sessions| && w.workers[k].lease.session < |w.store.sessions|
            && PrefixOf(w, j) != PrefixOf(w, k)
  {
    RunFits(steps);
    var w := Run(steps);
    var a, b := w.workers[j].lease, w.workers[k].lease;
    SessionOf(w.store, a.session);
    SessionOf(w.store, b.session);
    hide Run, Prefix;
    if PrefixOf(w, j) == PrefixOf(w, k) {
      var s, u := w.store.sessions[a.session], w.store.sessions[b.session];
      PrefixIsInjective(s.tenant, s.id, a.generation, u.tenant, u.id, b.generation);
      assert false;
    }
  }

  /** Once a later lease of the session has been handed out, an old lease changes nothing, whatever it still tries. */
  lemma SupersededImportIsMute(before: seq<Step>, more: seq<Step>, k: nat, step: Step)
    requires var w := Run(before);
             && k < |w.workers| && w.workers[k].lease.session < |w.store.sessions|
             && w.workers[k].lease.generation < w.store.sessions[w.workers[k].lease.session].generation
    requires (step.Heartbeat? || step.Begin? || step.Finish? || step.Crash?) && step.worker == k
    ensures var w := Run(before + more); Next(w, step).store == w.store.(clock := w.store.clock + 1)
  {
    RunEvolves(before, more);
    var a, b := Run(before), Run(before + more);
    var i := a.workers[k].lease.session;
    assert SessionMoves(a.store.sessions[i], b.store.sessions[i]);
    hide Run;
  }

  /**
   A worker that ends its session changes it exactly when the fence holds: the session is still being verified under
   this very lease, and the lease had not run out when the processing transaction began, however late it is now.
   */
  lemma WritesExactlyWhenFenced(w: World, k: nat, outcome: Outcome)
    requires k < |w.workers| && !w.workers[k].finished && w.workers[k].began.Some?
    ensures Next(w, Finish(k, outcome)).store.sessions != w.store.sessions <==>
              T.Fenced(w.store, w.workers[k].lease, w.workers[k].began.value.0)
  {
    var l := w.workers[k].lease;
    var u := Next(w, Finish(k, outcome)).store;
    if T.Fenced(w.store, l, w.workers[k].began.value.0) {
      assert !u.sessions[l.session].status.Verifying?;
    }
  }

  /** The lease of worker `k` has run out. */
  ghost predicate RunOut(w: World, k: nat)
    requires k < |w.workers|
  {
    var l := w.workers[k].lease;
    l.session < |w.store.sessions| && var s := w.store.sessions[l.session];
    s.hold.Some? && s.hold.value.expiresAt < w.store.clock
  }

  /** As long as a session has the generation of a lease, it is held by the owner of that lease. */
  ghost predicate OwnersFit(w: World) {
    forall k :: 0 <= k < |w.workers| ==>
      var l := w.workers[k].lease;
      && l.session < |w.store.sessions|
      && var s := w.store.sessions[l.session];
         s.generation == l.generation ==> s.hold.Some? && s.hold.value.owner == l.owner
  }

  ghost predicate SameHolder(a: Session, b: Session) {
    b.generation == a.generation && (a.hold.Some? ==> b.hold.Some? && b.hold.value.owner == a.hold.value.owner)
  }

  /** Only a claim changes generations and owners. */
  lemma HoldersStay(w: World, step: Step)
    requires !step.Claim?
    ensures |w.store.sessions| <= |Do(w, step).store.sessions|
    ensures forall i :: 0 <= i < |w.store.sessions| ==> SameHolder(w.store.sessions[i], Do(w, step).store.sessions[i])
  {
  }

  lemma ClaimHolders(t: Store, owner: string, seconds: nat, locked: set<nat>)
    ensures var (u, lease) := T.Claim(t, owner, seconds, locked);
            && |u.sessions| == |t.sessions|
            && (forall i :: 0 <= i < |t.sessions| && (lease.None? || i != lease.value.session) ==>
                SameHolder(t.sessions[i], u.sessions[i]))
            && (lease.Some? ==>
                  && lease.value.session < |t.sessions|
                  && u.sessions[lease.value.session].generation == lease.value.generation ==
                       t.sessions[lease.value.session].generation + 1
                  && u.sessions[lease.value.session].hold == Some(T.Hold(owner, t.clock + seconds))
                     && lease.value.owner == owner)
  {
  }

  lemma OwnersStay(w: World, step: Step)
    requires OwnersFit(w) && WorkersFit(w)
    ensures OwnersFit(Next(w, step))
  {
    var v := Advance(w);
    if step.Claim? {
      ClaimHolders(v.store, step.owner, step.lease, step.locked);
      hide T.Claim;
    } else {
      HoldersStay(v, step);
      WorkersSame(v, step);
      hide Do;
    }
  }

  lemma {:induction false} OwnersAlwaysFit(steps: seq<Step>)
    ensures OwnersFit(Run(steps))
  {
    if |steps| > 0 {
      var front := steps[..|steps| - 1];
      OwnersAlwaysFit(front);
      RunFits(front);
      hide Next, OwnersFit;
      OwnersStay(Run(front), steps[|steps| - 1]);
    }
  }

  /**
   When a lease that has run out still writes: exactly when its session is still being verified under its generation, so
   that nobody has claimed, reset or ended it since, and the worker began before the expiry.
   */
  lemma LateWritesExactly(before: seq<Step>, k: nat, outcome: Outcome)
    requires var w := Run(before); k < |w.workers| && !w.workers[k].finished && w.workers[k].began.Some? && RunOut(w, k)
    ensures var w := Run(before);
            var l, started := w.workers[k].lease, w.workers[k].began.value.0;
            && l.session < |w.store.sessions|
            && var s := w.store.sessions[l.session];
               Run(before + [Finish(k, outcome)]).store.sessions != w.store.sessions <==>
                 s.status.Verifying? && s.generation == l.generation && started <= s.hold.value.expiresAt
  {
    OwnersAlwaysFit(before);
    RunExtend(before, Finish(k, outcome));
    hide Run;
    WritesExactlyWhenFenced(Run(before), k, outcome);
    hide Next;
  }

  /** A worker that begins in time and ends after its lease, of any length the settings allow, has run out. */
  function LateFinish(id: string, tenant: string, m: Manifest, seconds: nat): seq<Step> {
    [Upload(id, tenant, None, "n", 1000), Stage(0), Claim("w", seconds, {}), Begin(0), Tick(seconds),
     Finish(0, Normalized(m))]
  }

  lemma LateWriteHappens(id: string, tenant: string, m: Manifest, seconds: nat)
    requires |id| == |tenant| == UUID_LENGTH && seconds >= MIN_LEASE_SECONDS
    ensures var t := Run(LateFinish(id, tenant, m, seconds)).store;
            && |t.sessions| == 1 && t.sessions[0].status.Verified?
            && t.sessions[0].hold.Some? && t.sessions[0].hold.value.expiresAt < t.clock
  {
    hide Run, Next;
    RunSix(LateFinish(id, tenant, m, seconds));
    UploadAndStage(id, tenant);
    LateLease(Next(Next(START, Upload(id, tenant, None, "n", 1000)), Stage(0)), m, seconds);
  }

  lemma UploadAndStage(id: string, tenant: string)
    requires |id| == |tenant| == UUID_LENGTH
    ensures Next(Next(START, Upload(id, tenant, None, "n", 1000)), Stage(0)) ==
              World(Store(2, [Session(id, tenant, None, "n", 1, 1001, Staged, None, None, 0, 0, None, None)], [], []),
                    [])
  {
    var s := Session(id, tenant, None, "n", 1, 1001, Uploading, None, None, 0, 0, None, None);
    assert Next(START, Upload(id, tenant, None, "n", 1000)) == World(Store(1, [s], [], []), []);
  }

  lemma LateLease(w: World, m: Manifest, seconds: nat)
    requires |w.store.sessions| == 1 && w.workers == [] && w.store.clock == 2 && seconds >= MIN_LEASE_SECONDS
    requires var s := w.store.sessions[0];
             s.status.Staged? && s.expiresAt == 1001 && s.attempts == 0 && s.generation == 0 && s.asset == None
    ensures var t := Next(Next(Next(Next(w, Claim("w", seconds, {})), Begin(0)), Tick(seconds)),
                          Finish(0, Normalized(m))).store;
            && |t.sessions| == 1 && t.sessions[0].status.Verified?
            && t.sessions[0].hold.Some? && t.sessions[0].hold.value.expiresAt < t.clock
  {
    LateClaim(w);
    var s := w.store.sessions[0];
    var claimed := s.(status := Verifying, hold := Some(Hold("w", 3 + seconds)), generation := 1, attempts := 1);
    var l := Lease(0, "w", 1, None);
    var w3 := World(w.store.(clock := 3, sessions := [claimed]), [Worker(l, None, false)]);
    assert Next(w, Claim("w", seconds, {})) == w3;
    var w4 := World(w3.store.(clock := 4), [Worker(l, Some((4, 0)), false)]);
    assert Next(w3, Begin(0)) == w4;
    var w5 := w4.(store := w4.store.(clock := 5 + seconds));
    assert Next(w4, Tick(seconds)) == w5;
    hide T.Claim, T.Oldest;
    assert T.Fenced(Advance(w5).store, l, 4);
  }

  lemma LateClaim(w: World)
    requires |w.store.sessions| == 1 && w.store.sessions[0].status.Staged?
    ensures T.Oldest(w.store.sessions, w.store.clock + 1, {}) == Some(0)
  {
    assert w.store.sessions[..0] == [];
  }

  lemma RunSix(s: seq<Step>)
    requires |s| == 6
    ensures Run(s) == Next(Next(Next(Next(Next(Next(START, s[0]), s[1]), s[2]), s[3]), s[4]), s[5])
  {
    hide Next;
    assert s[..6] == s;
    assert s[..6][..5] == s[..5] && s[..5][..4] == s[..4] && s[..4][..3] == s[..3] && s[..3][..2] == s[..2]
           && s[..2][..1] == s[..1];
    assert Run(s[..1]) == Next(START, s[0]);
    assert Run(s[..2]) == Next(Run(s[..1]), s[1]);
    assert Run(s[..3]) == Next(Run(s[..2]), s[2]);
    assert Run(s[..4]) == Next(Run(s[..3]), s[3]);
    assert Run(s[..5]) == Next(Run(s[..4]), s[4]);
  }

  // ---- registration ----------------------------------------------------------------------------

  /**
   The versions of an asset are exactly 1 to n, in table order, and no two of its snapshots have the same raw hash.
   */
  ghost predicate Numbered(snapshots: seq<Snapshot>, asset: nat, n: nat) {
    && (forall v: nat :: 1 <= v <= n ==> HasVersion(snapshots, asset, v))
    && (forall k :: 0 <= k < |snapshots| && snapshots[k].asset == asset ==> 1 <= snapshots[k].version <= n)
    && (forall i, j :: 0 <= i < j < |snapshots| && snapshots[i].asset == asset && snapshots[j].asset == asset ==>
          snapshots[i].version < snapshots[j].version && snapshots[i].raw != snapshots[j].raw)
  }

  lemma DenseIsNumbered(snapshots: seq<Snapshot>, asset: nat)
    requires Dense(snapshots) && RawUnique(snapshots)
    ensures Numbered(snapshots, asset, CountOf(snapshots, asset))
  {
    hide Dense, CountOf;
    forall v: nat | 1 <= v <= CountOf(snapshots, asset)
      ensures HasVersion(snapshots, asset, v)
    {
      EveryVersionExists(snapshots, asset, v);
    }
    forall i: nat, j: nat | i <= j < |snapshots| && snapshots[i].asset == asset && snapshots[j].asset == asset
      ensures 1 <= snapshots[i].version <= snapshots[j].version <= CountOf(snapshots, asset)
      ensures i < j ==> snapshots[i].version < snapshots[j].version
    {
      VersionsClimb(snapshots, asset, i, j);
    }
    hide HasVersion;
    forall k | 0 <= k < |snapshots| && snapshots[k].asset == asset
      ensures 1 <= snapshots[k].version <= CountOf(snapshots, asset)
    {
      VersionsClimb(snapshots, asset, k, k);
    }
  }

  /**
   In every reachable state an asset's version count is n, its versions are 1 to n, and its current snapshot is version
   n.
   */
  lemma VersionsAreDense(steps: seq<Step>, asset: nat)
    requires asset < |Run(steps).store.assets|
    ensures var t := Run(steps).store;
            var a := t.assets[asset];
            && Numbered(t.snapshots, asset, a.versions)
            && (a.current.None? <==> a.versions == 0)
            && (a.current.Some? ==>
                  && a.current.value < |t.snapshots|
                  && t.snapshots[a.current.value].asset == asset && t.snapshots[a.current.value].version == a.versions)
  {
    RunFits(steps);
    var t := Run(steps).store;
    assert AssetFits(t, asset);
    hide Run, Dense, SessionsFit, WorkersFit, Numbered, CountOf;
    LastVersion(t.snapshots, asset);
    DenseIsNumbered(t.snapshots, asset);
  }

  lemma VersionRecorded(t: Store, i: nat, asset: nat, m: Manifest)
    requires i < |t.sessions| && asset < |t.assets| && T.AppendVersion(t, i, asset, m).1.Success?
    ensures var (u, r) := T.AppendVersion(t, i, asset, m);
            && i < |u.sessions| && r.value < |u.snapshots|
            && u.sessions[i] == t.sessions[i].(status := Registered, asset := Some(asset), registered := Some(r.value))
            && u.snapshots[r.value].asset == asset
            && u.snapshots[r.value].raw == m.raw && u.snapshots[r.value].canonical == m.canonical
  {
    hide MaxVersion;
  }

  /** A successful registration: the session is registered, for the snapshot returned, which holds its very bytes. */
  lemma RegistrationRecords(t: Store, i: nat, tenant: string, acknowledged: bool)
    requires SessionsFit(t) && T.RegisterSnapshot(t, i, tenant, acknowledged).1.Success?
    ensures var (u, r) := T.RegisterSnapshot(t, i, tenant, acknowledged);
            && T.AlreadyRegistered(u, i, tenant) && u.sessions[i].registered == Some(r.value)
               && u.sessions[i].manifest.Some?
            && u.snapshots[r.value].raw == u.sessions[i].manifest.value.raw
            && u.snapshots[r.value].canonical == u.sessions[i].manifest.value.canonical
            && u.sessions[i].asset == Some(u.snapshots[r.value].asset)
  {
    if T.AlreadyRegistered(t, i, tenant) {
      SessionOf(t, i);
    } else {
      hide SessionsFit, T.AppendVersion;
      var s := t.sessions[i];
      if s.asset.None? {
        VersionRecorded(t.(assets := t.assets + [Asset(tenant, s.name, 0, 0, None)]), i, |t.assets|, s.manifest.value);
      } else {
        VersionRecorded(t, i, s.asset.value, s.manifest.value);
      }
    }
  }

  lemma RegisteredStays(a: Store, b: Store, i: nat, tenant: string)
    requires Evolves(a, b) && T.AlreadyRegistered(a, i, tenant)
    ensures T.AlreadyRegistered(b, i, tenant) && b.sessions[i] == a.sessions[i]
  {
    assert SessionMoves(a.sessions[i], b.sessions[i]);
  }

  lemma StoreAfterRegistering(before: seq<Step>, i: nat, tenant: string, acknowledged: bool)
    ensures Run(before + [Register(i, tenant, acknowledged)]).store ==
              T.RegisterSnapshot(Advance(Run(before)).store, i, tenant, acknowledged).0
    ensures SessionsFit(Advance(Run(before)).store)
  {
    hide Run, SessionsFit, CatalogFits, WorkersFit, Evolves, T.RegisterSnapshot;
    RunFits(before);
    TimePasses(Run(before).store, Run(before).store.clock + 1);
    RunExtend(before, Register(i, tenant, acknowledged));
  }

  /** Registering a session again, however much later, returns the same snapshot and changes nothing. */
  lemma RegisteringAgainIsIdempotent(before: seq<Step>, more: seq<Step>, i: nat, tenant: string, first: bool,
                                     again: bool)
    requires T.RegisterSnapshot(Advance(Run(before)).store, i, tenant, first).1.Success?
    ensures var n := T.RegisterSnapshot(Advance(Run(before)).store, i, tenant, first).1.value;
            var later := Run(before + [Register(i, tenant, first)] + more).store;
            T.RegisterSnapshot(later, i, tenant, again) == (later, Success(n))
  {
    hide Run, T.RegisterSnapshot, Fits, Kept, SessionsFit, Evolves, Advance, T.AlreadyRegistered;
    StoreAfterRegistering(before, i, tenant, first);
    RegistrationRecords(Advance(Run(before)).store, i, tenant, first);
    RunEvolves(before + [Register(i, tenant, first)], more);
    var later := Run(before + [Register(i, tenant, first)] + more).store;
    RegisteredStays(Run(before + [Register(i, tenant, first)]).store, later, i, tenant);
    AgainOnlyReads(later, i, tenant, again);
  }

  lemma AgainOnlyReads(t: Store, i: nat, tenant: string, acknowledged: bool)
    requires T.AlreadyRegistered(t, i, tenant)
    ensures T.RegisterSnapshot(t, i, tenant, acknowledged) == (t, Success(t.sessions[i].registered.value))
  {
  }

  /** Registered sessions of one asset with the same raw bytes share one snapshot. */
  lemma SameBytesSameSnapshot(steps: seq<Step>, i: nat, j: nat)
    requires var s := Run(steps).store.sessions;
             && i < |s| && j < |s| && s[i].status.Registered? && s[j].status.Registered? && s[i].asset == s[j].asset
    ensures var t := Run(steps).store;
            && t.sessions[i].manifest.Some? && t.sessions[j].manifest.Some?
            && (t.sessions[i].registered == t.sessions[j].registered <==>
                  t.sessions[i].manifest.value.raw == t.sessions[j].manifest.value.raw)
  {
    RunFits(steps);
    var t := Run(steps).store;
    SessionOf(t, i);
    SessionOf(t, j);
    hide Run, Dense;
    var m, n := t.sessions[i].registered.value, t.sessions[j].registered.value;
    if m != n {
      assert t.snapshots[m].asset == t.snapshots[n].asset;
      assert t.snapshots[m].raw != t.snapshots[n].raw;
    }
  }

  /** A verified session always has its manifest, so registration never finds it malformed. */
  lemma NeverMalformed(steps: seq<Step>, i: nat, tenant: string, acknowledged: bool)
    ensures T.Precheck(Run(steps).store, i, tenant, acknowledged) != Some(Malformed)
  {
    hide Run, CatalogFits, WorkersFit, SessionsFit;
    RunFits(steps);
    var t := Run(steps).store;
    if i < |t.sessions| {
      SessionOf(t, i);
      assert t.sessions[i].status.Verified? ==> t.sessions[i].manifest.Some?;
    }
    hide SessionFits;
  }

  /** In a consistent store a refused registration writes nothing, not even the asset it was about to create. */
  lemma RefusalsWriteNothing(t: Store, i: nat, tenant: string, acknowledged: bool)
    requires CatalogFits(t) && T.RegisterSnapshot(t, i, tenant, acknowledged).1.Failure?
    ensures T.RegisterSnapshot(t, i, tenant, acknowledged).0 == t
  {
    hide Dense, AssetFits, MaxVersion;
    if T.Precheck(t, i, tenant, acknowledged).None? && t.sessions[i].asset.None? {
      var m := t.sessions[i].manifest.value;
      assert T.SameRaw(t.snapshots, |t.assets|, m.raw).None?;
    }
  }
}
