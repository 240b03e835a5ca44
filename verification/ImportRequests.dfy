/** The import queue as its workers see it: what a claim hands out, how long a lease lasts, and how an import ends. */
module ImportRequests {
  import opened Wrappers
  import T = ImportTables
  import opened ImportTables
  import opened ImportRuns
  import opened ImportTheorems

  // ---- claims ----------------------------------------------------------------------------------

  /** A session nobody works on: staged, or being verified under a lease that expired before `now`. */
  ghost predicate Abandoned(s: Session, now: nat) {
    s.status == Staged || (s.status == Verifying && s.hold.Some? && s.hold.value.expiresAt < now)
  }

  /** Among the unlocked abandoned sessions, `n` is the oldest. */
  ghost predicate OldestAbandoned(sessions: seq<Session>, now: nat, locked: set<nat>, n: nat) {
    && n < |sessions| && n !in locked && Abandoned(sessions[n], now)
    && forall m :: 0 <= m < |sessions| && m !in locked && Abandoned(sessions[m], now) ==>
         sessions[n].createdAt <= sessions[m].createdAt
  }

  lemma {:induction false} OldestIsOldest(sessions: seq<Session>, now: nat, locked: set<nat>)
    ensures var n := T.Oldest(sessions, now, locked);
            && (n.Some? ==> OldestAbandoned(sessions, now, locked, n.value))
            && (n.None? ==> forall m :: 0 <= m < |sessions| && m !in locked ==> !Abandoned(sessions[m], now))
  {
    if |sessions| > 0 {
      OldestIsOldest(sessions[..|sessions| - 1], now, locked);
    }
  }

  /** Only session `i` moves, to `s`. */
  ghost predicate OnlyMoves(t: Store, u: Store, i: nat, s: Session) {
    i < |t.sessions| && u == t.(sessions := t.sessions[i := s])
  }

  /** What becomes of the oldest abandoned session: failed when it has expired or had three attempts, else leased. */
  ghost predicate ClaimAnswer(t: Store, u: Store, i: nat, owner: string, seconds: nat, lease: Option<Lease>)
    requires i < |t.sessions|
  {
    var s := t.sessions[i];
    if s.expiresAt < t.clock then
      lease == None && OnlyMoves(t, u, i, s.(status := Failed, error := Some(ImportExpired)))
    else if s.attempts >= 3 then
      lease == None && OnlyMoves(t, u, i, s.(status := Failed, error := Some(RetryExhausted)))
    else
      && lease == Some(Lease(i, owner, s.generation + 1, s.asset))
      && OnlyMoves(t, u, i, s.(status := Verifying, hold := Some(Hold(owner, t.clock + seconds)),
                               generation := s.generation + 1, attempts := s.attempts + 1))
  }

  ghost predicate ClaimOutcome(t: Store, u: Store, owner: string, seconds: nat, locked: set<nat>,
                               lease: Option<Lease>) {
    || (lease == None && u == t
        && forall m :: 0 <= m < |t.sessions| && m !in locked ==> !Abandoned(t.sessions[m], t.clock))
    || exists i :: OldestAbandoned(t.sessions, t.clock, locked, i) && ClaimAnswer(t, u, i, owner, seconds, lease)
  }

  lemma ClaimExactly(t: Store, owner: string, seconds: nat, locked: set<nat>)
    ensures var (u, lease) := T.Claim(t, owner, seconds, locked); ClaimOutcome(t, u, owner, seconds, locked, lease)
  {
    OldestIsOldest(t.sessions, t.clock, locked);
    hide T.Oldest, OldestAbandoned, Abandoned;
    match T.Oldest(t.sessions, t.clock, locked)
    case None =>
    case Some(i) =>
      assert ClaimAnswer(t, T.Claim(t, owner, seconds, locked).0, i, owner, seconds,
                         T.Claim(t, owner, seconds, locked).1);
  }

  /**
   A claim looks at the oldest unlocked session that is staged or whose lease has run out, never at one under a live
   lease: it fails it when it has expired or had its three attempts, and leases it otherwise. If there is none, nobody
   gets a lease and nothing moves.
   */
  lemma ImportClaimHandsOut(before: seq<Step>, owner: string, seconds: nat, locked: set<nat>)
    ensures var w, v := Advance(Run(before)), Run(before + [Claim(owner, seconds, locked)]);
            exists lease :: ClaimOutcome(w.store, v.store, owner, seconds, locked, lease)
                            && v.workers == w.workers + (if lease.None? then [] else [Worker(lease.value, None, false)])
  {
    hide Run, T.Claim, ClaimOutcome;
    var w := Advance(Run(before));
    RunExtend(before, Claim(owner, seconds, locked));
    ClaimExactly(w.store, owner, seconds, locked);
    assert T.Claim(w.store, owner, seconds, locked).1.None? ==> w.workers == w.workers + [];
  }

  // ---- leases ----------------------------------------------------------------------------------

  /** The session is being verified under this very lease, which had not run out at `at`. */
  ghost predicate InHand(t: Store, l: Lease, at: nat) {
    && l.session < |t.sessions|
    && var s := t.sessions[l.session];
       s.status == Verifying && s.hold.Some? && s.hold.value.owner == l.owner && s.generation == l.generation
       && at <= s.hold.value.expiresAt
  }

  /** What worker `k` can do to shorten its lease: end the import, or ask for less time. */
  predicate LetsGo(step: Step, k: nat, until: nat, now: nat) {
    (step.Finish? && step.worker == k) || (step.Heartbeat? && step.worker == k && now + step.lease < until)
  }

  lemma SessionStays(t: Store, i: nat)
    requires i < |t.sessions| && t.sessions[i].status == Verifying
    ensures forall n :: i < |T.Stage(t, n).sessions| && T.Stage(t, n).sessions[i] == t.sessions[i]
    ensures forall n :: i < |T.Configure(t, n).sessions| && T.Configure(t, n).sessions[i] == t.sessions[i]
    ensures forall n :: i < |T.Abort(t, n).sessions| && T.Abort(t, n).sessions[i] == t.sessions[i]
  {
  }

  lemma RegistrationElsewhere(t: Store, i: nat, n: nat, tenant: string, acknowledged: bool)
    requires i < |t.sessions| && t.sessions[i].status == Verifying
    ensures var u := T.RegisterSnapshot(t, n, tenant, acknowledged).0;
            i < |u.sessions| && u.sessions[i] == t.sessions[i]
  {
    hide MaxVersion;
  }

  lemma LeaseWriteElsewhere(t: Store, l: Lease, m: Lease, at: nat, seconds: nat, started: nat, revision: nat,
                            outcome: Outcome)
    requires InHand(t, l, at) && (m.session == l.session ==> m.generation != l.generation)
    ensures InHand(T.Heartbeat(t, m, seconds).0, l, at) && InHand(T.Finish(t, m, started, revision, outcome), l, at)
  {
  }

  lemma ClaimElsewhere(t: Store, l: Lease, at: nat, owner: string, seconds: nat, locked: set<nat>)
    requires InHand(t, l, at) && t.clock <= at
    ensures InHand(T.Claim(t, owner, seconds, locked).0, l, at)
  {
    ClaimExactly(t, owner, seconds, locked);
    hide T.Claim;
  }

  lemma StepKeepsHeld(w: World, step: Step, k: nat, until: nat)
    requires WorkersFit(w) && k < |w.workers| && InHand(w.store, w.workers[k].lease, until)
    requires w.store.clock <= until && !LetsGo(step, k, until, w.store.clock)
    ensures InHand(Do(w, step).store, w.workers[k].lease, until)
  {
    var t, l := w.store, w.workers[k].lease;
    SessionStays(t, l.session);
    hide T.Claim, T.Stage, T.Configure, T.Abort, T.RegisterSnapshot, T.Heartbeat, T.Finish;
    match step
    case Register(n, tenant, acknowledged) => RegistrationElsewhere(t, l.session, n, tenant, acknowledged);
    case Claim(owner, seconds, locked) => ClaimElsewhere(t, l, until, owner, seconds, locked);
    case Heartbeat(j, seconds) => HeartbeatKeepsHeld(w, j, k, until, seconds);
    case Finish(j, outcome) =>
      if j < |w.workers| && w.workers[j].began.Some? {
        assert j < k || k < j;
        var (started, revision) := w.workers[j].began.value;
        LeaseWriteElsewhere(t, l, w.workers[j].lease, until, 0, started, revision, outcome);
      }
    case _ =>
  }

  lemma HeartbeatKeepsHeld(w: World, j: nat, k: nat, until: nat, seconds: nat)
    requires WorkersFit(w) && k < |w.workers| && InHand(w.store, w.workers[k].lease, until)
    requires j == k ==> until <= w.store.clock + seconds
    ensures j < |w.workers| ==> InHand(T.Heartbeat(w.store, w.workers[j].lease, seconds).0, w.workers[k].lease, until)
  {
    if j < |w.workers| && j != k {
      assert j < k || k < j;
      LeaseWriteElsewhere(w.store, w.workers[k].lease, w.workers[j].lease, until, seconds, 0, 0, Unexpected);
    }
  }

  /** Nothing in `more` lets the lease of worker `k` go before `until`. */
  ghost predicate KeptUp(before: seq<Step>, more: seq<Step>, k: nat, until: nat) {
    forall n :: 0 <= n < |more| ==> !LetsGo(more[n], k, until, Run(before + more[..n]).store.clock + 1)
  }

  lemma KeptUpFront(before: seq<Step>, more: seq<Step>, k: nat, until: nat)
    requires |more| > 0 && KeptUp(before, more, k, until)
    ensures KeptUp(before, more[..|more| - 1], k, until)
    ensures !LetsGo(more[|more| - 1], k, until, Run(before + more[..|more| - 1]).store.clock + 1)
  {
    hide LetsGo, Run;
    var front := more[..|more| - 1];
    forall n | 0 <= n < |front|
      ensures !LetsGo(front[n], k, until, Run(before + front[..n]).store.clock + 1)
    {
      assert front[..n] == more[..n];
    }
  }

  lemma ClockRuns(w: World, step: Step)
    requires Fits(w)
    ensures Advance(w).store.clock <= Next(w, step).store.clock && WorkersFit(Advance(w))
  {
    hide SessionsFit, CatalogFits, Do, SessionMoves;
    TimePasses(w.store, w.store.clock + 1);
    StoreKept(Advance(w), step);
  }

  lemma OneStepHeld(before: seq<Step>, step: Step, k: nat, until: nat)
    requires k < |Run(before).workers| && InHand(Run(before).store, Run(before).workers[k].lease, until)
    requires !LetsGo(step, k, until, Run(before).store.clock + 1) && Run(before + [step]).store.clock <= until
    ensures InHand(Run(before + [step]).store, Run(before).workers[k].lease, until)
  {
    hide Run, Fits, Do, LetsGo, WorkersFit;
    RunFits(before);
    RunExtend(before, step);
    ClockRuns(Run(before), step);
    StepKeepsHeld(Advance(Run(before)), step, k, until);
  }

  lemma LeaseStays(before: seq<Step>, more: seq<Step>, k: nat)
    requires k < |Run(before).workers|
    ensures k < |Run(before + more).workers|
    ensures Run(before + more).workers[k].lease == Run(before).workers[k].lease
    ensures Run(before).store.clock <= Run(before + more).store.clock
  {
    hide Run, SessionMoves;
    RunEvolves(before, more);
  }

  /**
   While a lease lasts it is the session's only one: whatever runs in between, up to the moment it was granted or
   extended to the session stays in verification under it, unless its holder itself ended the import or asked for less
   time.
   */
  lemma {:induction false} ImportLeaseIsExclusive(before: seq<Step>, more: seq<Step>, k: nat, until: nat)
    requires k < |Run(before).workers| && InHand(Run(before).store, Run(before).workers[k].lease, until)
    requires KeptUp(before, more, k, until) && Run(before + more).store.clock <= until
    ensures InHand(Run(before + more).store, Run(before).workers[k].lease, until)
    decreases |more|
  {
    hide Run, KeptUp, LetsGo, InHand;
    if |more| == 0 {
      assert before + more == before;
    } else {
      var front, last := more[..|more| - 1], more[|more| - 1];
      assert before + more == (before + front) + [last];
      KeptUpFront(before, more, k, until);
      LeaseStays(before, front, k);
      LeaseStays(before + front, [last], k);
      ImportLeaseIsExclusive(before, front, k, until);
      OneStepHeld(before + front, last, k, until);
    }
  }

  /** A claim that hands out a lease grants it for `seconds`. */
  lemma ImportClaimIsHeld(before: seq<Step>, owner: string, seconds: nat, locked: set<nat>)
    requires |Run(before + [Claim(owner, seconds, locked)]).workers| > |Run(before).workers|
    ensures var v := Run(before + [Claim(owner, seconds, locked)]);
            var k := |Run(before).workers|;
            k < |v.workers| && InHand(v.store, v.workers[k].lease, v.store.clock + seconds)
  {
    hide Run, OldestAbandoned;
    var w, v := Advance(Run(before)), Run(before + [Claim(owner, seconds, locked)]);
    ImportClaimHandsOut(before, owner, seconds, locked);
    var lease :| ClaimOutcome(w.store, v.store, owner, seconds, locked, lease)
                 && v.workers == w.workers + (if lease.None? then [] else [Worker(lease.value, None, false)]);
    OldestInRange(w.store.sessions, w.store.clock, locked);
  }

  lemma OldestInRange(sessions: seq<Session>, now: nat, locked: set<nat>)
    ensures forall i: nat :: OldestAbandoned(sessions, now, locked, i) ==> i < |sessions|
  {
  }

  // ---- how an import ends ----------------------------------------------------------------------

  /** Assets that sessions and leases name exist. */
  ghost predicate TargetsExist(w: World) {
    && (forall s <- w.store.sessions :: s.asset.Some? ==> s.asset.value < |w.store.assets|)
    && (forall k <- w.workers :: k.lease.asset.Some? ==> k.lease.asset.value < |w.store.assets|)
  }

  lemma RegistrationTargets(t: Store, n: nat, tenant: string, acknowledged: bool)
    requires forall s <- t.sessions :: s.asset.Some? ==> s.asset.value < |t.assets|
    ensures var u := T.RegisterSnapshot(t, n, tenant, acknowledged).0;
            |t.assets| <= |u.assets| && forall s <- u.sessions :: s.asset.Some? ==> s.asset.value < |u.assets|
  {
    hide MaxVersion;
  }

  ghost predicate SessionTargets(t: Store) {
    forall s <- t.sessions :: s.asset.Some? ==> s.asset.value < |t.assets|
  }

  lemma QueueKeepsTargets(t: Store)
    requires SessionTargets(t)
    ensures forall owner, seconds, locked ::
              var (u, lease) := T.Claim(t, owner, seconds, locked);
              && SessionTargets(u) && u.assets == t.assets
              && (lease.Some? && lease.value.asset.Some? ==> lease.value.asset.value < |t.assets|)
    ensures forall l, seconds :: var u := T.Heartbeat(t, l, seconds).0; SessionTargets(u) && u.assets == t.assets
    ensures forall l, started, revision, outcome ::
              var u := T.Finish(t, l, started, revision, outcome); SessionTargets(u) && u.assets == t.assets
  {
    hide T.Oldest;
  }

  lemma StepKeepsTargets(w: World, step: Step)
    requires TargetsExist(w)
    ensures TargetsExist(Next(w, step)) && |w.store.assets| <= |Next(w, step).store.assets|
  {
    var t := Advance(w).store;
    assert SessionTargets(t);
    QueueKeepsTargets(t);
    if step.Register? { RegistrationTargets(t, step.session, step.tenant, step.acknowledged); }
    hide T.Claim, T.Heartbeat, T.Finish, T.RegisterSnapshot;
  }

  lemma {:induction false} TargetsAlwaysExist(steps: seq<Step>)
    ensures TargetsExist(Run(steps))
  {
    if |steps| > 0 {
      hide Next, TargetsExist;
      TargetsAlwaysExist(steps[..|steps| - 1]);
      StepKeepsTargets(Run(steps[..|steps| - 1]), steps[|steps| - 1]);
    }
  }

  /** Step `n` of `more` moves the protection version of the asset. */
  predicate ChangesAt(more: seq<Step>, n: nat, asset: nat) {
    n < |more| && more[n] == ChangeProtection(asset)
  }

  lemma RegistrationRevisions(t: Store, n: nat, tenant: string, acknowledged: bool, a: nat)
    requires a < |t.assets|
    ensures var u := T.RegisterSnapshot(t, n, tenant, acknowledged).0;
            a < |u.assets| && u.assets[a].revision == t.assets[a].revision
  {
    hide MaxVersion;
  }

  lemma StepRevision(w: World, step: Step, a: nat)
    requires a < |w.store.assets|
    ensures var u := Next(w, step).store;
            && a < |u.assets|
            && u.assets[a].revision == w.store.assets[a].revision + (if step == ChangeProtection(a) then 1 else 0)
  {
    var v := Advance(w);
    hide T.Oldest;
    if step.Register? {
      RegistrationRevisions(v.store, step.session, step.tenant, step.acknowledged, a);
      hide T.RegisterSnapshot;
    }
  }

  /** The protection version of an asset moves exactly with the steps that change its protection. */
  lemma {:induction false} RevisionMoves(before: seq<Step>, more: seq<Step>, a: nat)
    requires a < |Run(before).store.assets|
    ensures var u := Run(before + more).store;
            && a < |u.assets| && Run(before).store.assets[a].revision <= u.assets[a].revision
            && (u.assets[a].revision == Run(before).store.assets[a].revision <==> forall n :: !ChangesAt(more, n, a))
    decreases |more|
  {
    hide Run, Next;
    if |more| == 0 {
      assert before + more == before;
    } else {
      var front, last := more[..|more| - 1], more[|more| - 1];
      assert before + more == (before + front) + [last];
      RevisionMoves(before, front, a);
      RunExtend(before + front, last);
      StepRevision(Run(before + front), last, a);
      assert forall n :: ChangesAt(more, n, a) <==>
               ChangesAt(front, n, a) || (n == |front| && last == ChangeProtection(a));
      assert ChangesAt(more, |front|, a) <==> last == ChangeProtection(a);
    }
  }

  /** What a worker has read when it began stays with it. */
  lemma {:induction false} BeganStays(before: seq<Step>, more: seq<Step>, k: nat)
    requires k < |Run(before).workers| && Run(before).workers[k].began.Some?
    ensures k < |Run(before + more).workers|
    ensures Run(before + more).workers[k].began == Run(before).workers[k].began
    ensures Run(before + more).workers[k].lease == Run(before).workers[k].lease
    decreases |more|
  {
    hide Run, Next;
    if |more| == 0 {
      assert before + more == before;
    } else {
      var front, last := more[..|more| - 1], more[|more| - 1];
      assert before + more == (before + front) + [last];
      BeganStays(before, front, k);
      RunExtend(before + front, last);
      StepKeepsBegan(Run(before + front), last, k);
    }
  }

  lemma StepKeepsBegan(w: World, step: Step, k: nat)
    requires k < |w.workers| && w.workers[k].began.Some?
    ensures k < |Next(w, step).workers|
    ensures Next(w, step).workers[k].began == w.workers[k].began
    ensures Next(w, step).workers[k].lease == w.workers[k].lease
  {
    hide T.Claim, T.RegisterSnapshot, T.Finish;
  }

  /** The import has ended with this status, reason and manifest, and nothing else has moved. */
  ghost predicate Concluded(t: Store, u: Store, l: Lease, status: Status, error: Option<Reason>,
                            manifest: Option<Manifest>) {
    && l.session < |t.sessions|
    && u == t.(sessions := t.sessions[l.session := t.sessions[l.session].(status := status, error := error,
                                                                            manifest := manifest)])
  }

  /**
   How an import ends that may still write: `changed` says whether its asset's protection has changed since it began.
   */
  ghost predicate Ends(t: Store, u: Store, l: Lease, outcome: Outcome, changed: bool)
    requires l.session < |t.sessions|
  {
    var kept := t.sessions[l.session].manifest;
    match outcome
    case Normalized(m) =>
      if changed then Concluded(t, u, l, Rejected, Some(PolicyChanged), kept)
      else Concluded(t, u, l, Verified, None, Some(m))
    case InspectionFailed(reason) => Concluded(t, u, l, Rejected, Some(reason), kept)
    case Unexpected => Concluded(t, u, l, Failed, Some(InternalWorkerError), kept)
    case NoVersioning => Concluded(t, u, l, Failed, Some(VersioningRequired), kept)
  }

  lemma FinishExactly(t: Store, l: Lease, started: nat, revision: nat, outcome: Outcome)
    requires l.asset.Some? ==> l.asset.value < |t.assets|
    ensures var u := T.Finish(t, l, started, revision, outcome);
            if InHand(t, l, started) then
              Ends(t, u, l, outcome, l.asset.Some? && t.assets[l.asset.value].revision != revision)
            else u == t
  {
  }

  lemma BeginStep(w: World, k: nat)
    requires k < |w.workers| && !w.workers[k].finished && w.workers[k].began.None?
    ensures var v := Next(w, Begin(k));
            && v.store == w.store.(clock := w.store.clock + 1) && k < |v.workers|
            && v.workers[k] == w.workers[k].(began := Some((v.store.clock,
                                                            T.RevisionFor(v.store, w.workers[k].lease.asset))))
  {
  }

  lemma FinishStep(w: World, k: nat, outcome: Outcome)
    requires k < |w.workers| && !w.workers[k].finished && w.workers[k].began.Some?
    ensures var v := Next(w, Finish(k, outcome));
            var (started, revision) := w.workers[k].began.value;
            && v.store == T.Finish(Advance(w).store, w.workers[k].lease, started, revision, outcome)
            && v.workers == w.workers[k := w.workers[k].(finished := true)]
  {
    hide T.Finish;
  }

  /**
   An import that ends while its lease was good when it began is verified, with the manifest of the inspection, exactly
   when the inspection succeeded and no step since it began has changed the protection of its asset; if one has, the
   import is rejected for that. Any other outcome has its own ending and is never verified, and a lease that was lost
   writes nothing.
   */
  lemma ImportEnds(before: seq<Step>, more: seq<Step>, k: nat, outcome: Outcome)
    requires var w := Run(before); k < |w.workers| && !w.workers[k].finished && w.workers[k].began.None?
    requires var w := Run(before + [Begin(k)] + more); k < |w.workers| ==> !w.workers[k].finished
    ensures var w := Advance(Run(before + [Begin(k)] + more));
            var v := Run(before + [Begin(k)] + more + [Finish(k, outcome)]);
            && k < |w.workers| && v.workers == w.workers[k := w.workers[k].(finished := true)]
            && var l := w.workers[k].lease;
               if InHand(w.store, l, Run(before).store.clock + 1) then
                 Ends(w.store, v.store, l, outcome, l.asset.Some? && exists n :: ChangesAt(more, n, l.asset.value))
               else v.store == w.store
  {
    hide Run, Next, Ends, InHand, T.Finish, ChangesAt, TargetsExist;
    var begun := before + [Begin(k)];
    var w := Run(begun + more);
    RunExtend(before, Begin(k));
    BeginStep(Run(before), k);
    BeganStays(begun, more, k);
    RunExtend(begun + more, Finish(k, outcome));
    FinishStep(w, k, outcome);
    var l := w.workers[k].lease;
    LeaseTarget(before, k);
    if l.asset.Some? { RevisionMoves(begun, more, l.asset.value); }
    FinishExactly(Advance(w).store, l, w.workers[k].began.value.0, w.workers[k].began.value.1, outcome);
  }

  lemma LeaseTarget(steps: seq<Step>, k: nat)
    requires k < |Run(steps).workers|
    ensures var l := Run(steps).workers[k].lease; l.asset.Some? ==> l.asset.value < |Run(steps).store.assets|
  {
    TargetsAlwaysExist(steps);
    assert Run(steps).workers[k] in Run(steps).workers;
    hide Run;
  }

  // ---- registration ----------------------------------------------------------------------------

  /** The session is registered for snapshot `n` of the asset. */
  ghost predicate Marked(t: Store, u: Store, i: nat, a: nat, n: nat)
    requires i < |t.sessions|
  {
    u.sessions == t.sessions[i := t.sessions[i].(status := Registered, asset := Some(a), registered := Some(n))]
  }

  /** The bytes are new to the asset: they become its next version, and its current one. */
  ghost predicate NextVersion(t: Store, u: Store, assets: seq<Asset>, i: nat, a: nat, m: Manifest)
    requires i < |t.sessions| && a < |assets|
  {
    var n := |t.snapshots|;
    && Marked(t, u, i, a, n)
    && u.snapshots == t.snapshots + [Snapshot(a, assets[a].versions + 1, m.raw, m.canonical)]
    && u.assets == assets[a := assets[a].(current := Some(n), versions := assets[a].versions + 1)]
    && u == t.(sessions := u.sessions, snapshots := u.snapshots, assets := u.assets)
  }

  /** A registration into asset `a`, the first of whose snapshots with these raw bytes, if any, is reused. */
  ghost predicate IntoAsset(t: Store, u: Store, i: nat, a: nat, m: Manifest, r: Result<nat, Refusal>)
    requires i < |t.sessions| && a < |t.assets|
  {
    && (forall n: nat | n < |t.snapshots| && t.snapshots[n].asset == a && t.snapshots[n].raw == m.raw ::
          if t.snapshots[n].canonical == m.canonical
          then r == Success(n) && Marked(t, u, i, a, n) && u == t.(sessions := u.sessions)
          else r == Failure(MappingConflict) && u == t)
    && ((forall s <- t.snapshots :: !(s.asset == a && s.raw == m.raw)) ==>
          r == Success(|t.snapshots|) && NextVersion(t, u, t.assets, i, a, m))
  }

  ghost predicate IntoNewAsset(t: Store, u: Store, i: nat, tenant: string, m: Manifest, r: Result<nat, Refusal>)
    requires i < |t.sessions|
  {
    var name := t.sessions[i].name;
    if exists a <- t.assets :: a.tenant == tenant && a.name == name then r == Failure(NameConflict) && u == t
    else
      && r == Success(|t.snapshots|)
      && NextVersion(t, u, t.assets + [Asset(tenant, name, 0, 0, None)], i, |t.assets|, m)
  }

  ghost predicate RegistrationAnswer(t: Store, u: Store, i: nat, tenant: string, acknowledged: bool,
                                     r: Result<nat, Refusal>) {
    if i >= |t.sessions| || t.sessions[i].tenant != tenant then r == Failure(NotFound) && u == t
    else
      var s := t.sessions[i];
      if s.status == Registered then s.registered.Some? && r == Success(s.registered.value) && u == t
      else if s.expiresAt < t.clock then r == Failure(Expired) && u == t
      else if s.status != Verified then r == Failure(StateConflict) && u == t
      else
        && s.manifest.Some?
        && var m := s.manifest.value;
           if m.singleColumn && !acknowledged then r == Failure(WarningNotAcknowledged) && u == t
           else if s.asset.None? then IntoNewAsset(t, u, i, tenant, m, r)
           else if s.asset.value >= |t.assets| || t.assets[s.asset.value].tenant != tenant then
             r == Failure(NotFound) && u == t
           else IntoAsset(t, u, i, s.asset.value, m, r)
  }

  lemma ReuseAnswer(t: Store, i: nat, a: nat, m: Manifest)
    requires i < |t.sessions| && a < |t.assets| && RawUnique(t.snapshots) && T.SameRaw(t.snapshots, a, m.raw).Some?
    ensures var (u, r) := T.AppendVersion(t, i, a, m); IntoAsset(t, u, i, a, m, r)
  {
    hide MaxVersion, RawUnique;
    var same := T.SameRaw(t.snapshots, a, m.raw).value;
    assert t.snapshots[same] in t.snapshots;
    hide T.SameRaw;
    forall n: nat | n < |t.snapshots| && t.snapshots[n].asset == a && t.snapshots[n].raw == m.raw
      ensures same == n
    {
      SameRawSameRow(t.snapshots, same, n);
    }
  }

  lemma AppendAnswer(t: Store, i: nat, a: nat, m: Manifest)
    requires i < |t.sessions| && a < |t.assets| && T.SameRaw(t.snapshots, a, m.raw).None?
    requires MaxVersion(t.snapshots, a) == t.assets[a].versions
    ensures var (u, r) := T.AppendVersion(t, i, a, m); IntoAsset(t, u, i, a, m, r)
  {
    hide MaxVersion;
    assert forall n :: 0 <= n < |t.snapshots| ==> t.snapshots[n] in t.snapshots;
  }

  lemma VersionAnswer(t: Store, i: nat, a: nat, m: Manifest)
    requires i < |t.sessions| && a < |t.assets| && AssetsFit(t) && Dense(t.snapshots) && RawUnique(t.snapshots)
    ensures var (u, r) := T.AppendVersion(t, i, a, m); IntoAsset(t, u, i, a, m, r)
  {
    hide Dense, CountOf, MaxVersion, LastOf, T.SameRaw, RawUnique, T.AppendVersion, IntoAsset;
    DenseMax(t.snapshots, a);
    assert AssetFits(t, a);
    if T.SameRaw(t.snapshots, a, m.raw).Some? {
      ReuseAnswer(t, i, a, m);
    } else {
      AppendAnswer(t, i, a, m);
    }
  }

  lemma SameRawSameRow(snapshots: seq<Snapshot>, m: nat, n: nat)
    requires RawUnique(snapshots) && m < |snapshots| && n < |snapshots|
    requires snapshots[m].asset == snapshots[n].asset && snapshots[m].raw == snapshots[n].raw
    ensures m == n
  {
  }

  lemma NewAssetAnswer(t: Store, i: nat, tenant: string, m: Manifest)
    requires i < |t.sessions| && SessionsFit(t) && CatalogFits(t) && !T.NameTaken(t.assets, tenant, t.sessions[i].name)
    ensures var assets := t.assets + [Asset(tenant, t.sessions[i].name, 0, 0, None)];
            var (u, r) := T.AppendVersion(t.(assets := assets), i, |t.assets|, m);
            r == Success(|t.snapshots|) && NextVersion(t, u, assets, i, |t.assets|, m)
  {
    var assets := t.assets + [Asset(tenant, t.sessions[i].name, 0, 0, None)];
    var v := t.(assets := assets);
    NewAssetCatalog(t, tenant, t.sessions[i].name);
    assert forall s <- t.snapshots :: s.asset != |t.assets|;
    hide SessionsFit, NamesUnique, T.NameTaken, T.AppendVersion, AssetsFit, Dense, RawUnique;
    VersionAnswer(v, i, |t.assets|, m);
  }

  lemma RegistrationExactly(t: Store, i: nat, tenant: string, acknowledged: bool)
    requires SessionsFit(t) && CatalogFits(t)
    ensures var (u, r) := T.RegisterSnapshot(t, i, tenant, acknowledged); RegistrationAnswer(t, u, i, tenant,
                                                                                             acknowledged, r)
  {
    if i < |t.sessions| {
      SessionOf(t, i);
      var s := t.sessions[i];
      hide SessionsFit, Dense, RawUnique, AssetsFit, NamesUnique, T.AppendVersion, NextVersion, IntoAsset;
      if s.manifest.Some? {
        if s.asset.None? {
          if !T.NameTaken(t.assets, tenant, s.name) { NewAssetAnswer(t, i, tenant, s.manifest.value); }
        } else if s.asset.value < |t.assets| {
          VersionAnswer(t, i, s.asset.value, s.manifest.value);
        }
      }
    }
  }

  /**
   Every registration is answered with the snapshot of the session's bytes or with the first refusal that applies; bytes
   that are new to the asset become its next version, and a refusal writes nothing.
   */
  lemma RegistrationAnswers(before: seq<Step>, i: nat, tenant: string, acknowledged: bool)
    ensures var t := Advance(Run(before)).store;
            var (u, r) := T.RegisterSnapshot(t, i, tenant, acknowledged);
            Run(before + [Register(i, tenant, acknowledged)]).store == u
              && RegistrationAnswer(t, u, i, tenant, acknowledged, r)
  {
    hide Run, SessionsFit, CatalogFits, WorkersFit, Evolves, T.RegisterSnapshot, RegistrationAnswer;
    RunFits(before);
    TimePasses(Run(before).store, Run(before).store.clock + 1);
    StoreAfterRegistering(before, i, tenant, acknowledged);
    RegistrationExactly(Advance(Run(before)).store, i, tenant, acknowledged);
  }

  // ---- the life of a session -------------------------------------------------------------------

  /** The ways a session can go, each with the step that takes it there. */
  ghost predicate Way(a: Session, b: Session, i: nat, step: Step) {
    || b.status == a.status
    || (a.status == Uploading && b.status == Staged && step == Stage(i))
    || (a.status == Verified && b.status == Staged && step == Configure(i))
    || (a.status == Rejected && a.error == Some(BadColumnNames) && b.status == Staged && step == Configure(i))
    || (a.status in {Uploading, Staged, Verified} && b.status == Aborted && step == Abort(i))
    || (a.status == Staged && b.status in {Verifying, Failed} && step.Claim?)
    || (a.status == Verifying && b.status == Failed && step.Claim?)
    || (a.status == Verifying && b.status in {Verified, Rejected, Failed} && step.Finish?)
    || (a.status == Verified && b.status == Registered && step.Register? && step.session == i)
  }

  lemma RegistrationWay(t: Store, n: nat, tenant: string, acknowledged: bool, i: nat)
    requires i < |t.sessions|
    ensures var u := T.RegisterSnapshot(t, n, tenant, acknowledged).0;
            i < |u.sessions| && (u.sessions[i].status == t.sessions[i].status
                                 || (n == i && t.sessions[i].status == Verified && u.sessions[i].status == Registered))
  {
    hide MaxVersion;
  }

  /** A session changes its status only along these ways. */
  lemma SessionsFollowTheirWays(before: seq<Step>, step: Step, i: nat)
    requires i < |Run(before).store.sessions|
    ensures i < |Run(before + [step]).store.sessions|
    ensures Way(Run(before).store.sessions[i], Run(before + [step]).store.sessions[i], i, step)
  {
    var t := Advance(Run(before)).store;
    RunExtend(before, step);
    hide Run, T.Oldest;
    if step.Register? {
      RegistrationWay(t, step.session, step.tenant, step.acknowledged, i);
      hide T.RegisterSnapshot;
    }
  }

  ghost predicate LifeCycleAnswer(t: Store, u: Store, i: nat, step: Step)
    requires i < |t.sessions|
  {
    var s := t.sessions[i];
    if step == Stage(i) && t.clock <= s.expiresAt && s.status == Uploading then OnlyMoves(t, u, i, s.(status := Staged))
    else if step == Configure(i) && t.clock <= s.expiresAt
            && (s.status == Verified || (s.status == Rejected && s.error == Some(BadColumnNames))) then
      OnlyMoves(t, u, i, s.(status := Staged, error := None))
    else if step == Abort(i) && s.status in {Uploading, Staged, Verified, Aborted} then
      OnlyMoves(t, u, i, s.(status := Aborted, error := Some(UserAborted)))
    else u == t
  }

  /** A session is staged, sent back to the queue or aborted exactly from the states and in the time that allow it. */
  lemma LifeCycleAnswers(before: seq<Step>, step: Step, i: nat)
    requires i < |Run(before).store.sessions| && step in {Stage(i), Configure(i), Abort(i)}
    ensures LifeCycleAnswer(Advance(Run(before)).store, Run(before + [step]).store, i, step)
  {
    RunExtend(before, step);
    hide Run;
  }
}
