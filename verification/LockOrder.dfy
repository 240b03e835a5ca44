/**
 Row locks of the privacy, import and registration transactions. Each transaction asks for its locks one by one and
 keeps them until it ends, which it may do at any point. The seeding lock of a tenant comes first, then the session, the
 asset and what belongs to it. A scan makes sure that its tenant is seeded when it already holds its asset; it never
 finds anything to seed there, because a tenant with a snapshot has committed an import, and imports seed.
 */
module LockOrder {
  import opened Wrappers

  datatype Lock =
    | SeedLock(tenant: string)
    | ConfigRow(tenant: string)
    | SessionRow(session: nat)
    | AssetRow(asset: nat)
    | RevisionRow(asset: nat)
    | JobRow(job: nat)
    | FindingRow(finding: nat)

  const RANKS: nat := 5

  function Rank(l: Lock): (r: nat)
    ensures r < RANKS
  {
    match l
    case SeedLock(_) => 0
    case ConfigRow(_) => 1
    case SessionRow(_) => 1
    case AssetRow(_) => 2
    case RevisionRow(_) => 3
    case JobRow(_) => 4
    case FindingRow(_) => 4
  }

  /** The transactions, with the rows they touch. */
  datatype Work =
    | SubmitScan(asset: nat, tenant: string)
    | Review(asset: nat, finding: nat)
    | Classify(asset: nat)
    | SetPolicy(asset: nat)
    | Publish(asset: nat, job: nat, apply: bool)
    | Heartbeat(job: nat)
    | Fail(job: nat)
    | Claim(job: nat)
    | ReadRules(tenant: string)
    | ChangeRules(tenant: string)
    | ClaimSession(session: nat)
    | SessionHeartbeat(session: nat)
    | EditSession(session: nat)
    | ProcessSession(session: nat, tenant: string)
    | RegisterSnapshot(session: nat, target: nat, tenant: string)

  /**
   What a transaction does in turn: ask for a row, look whether the tenant is seeded, take the seeding lock if it was
   not, or go on only if the committed rows allow it.
   */
  datatype Action =
    | Take(lock: Lock)
    | Look(tenant: string)
    | Seed(tenant: string)
    | NeedsSnapshot(asset: nat, tenant: string)
    | NeedsVerified(session: nat, target: nat, tenant: string)

  /** Every action in program order; an UPDATE asks for its row again. */
  function Program(w: Work): seq<Action> {
    match w
    case SubmitScan(a, tenant) =>
      [NeedsSnapshot(a, tenant), Take(AssetRow(a)), Take(RevisionRow(a)), Look(tenant), Seed(tenant),
       Take(RevisionRow(a))]
    case Review(a, f) =>
      [Take(AssetRow(a)), Take(RevisionRow(a)), Take(FindingRow(f)), Take(FindingRow(f)), Take(RevisionRow(a))]
    case Classify(a) => [Take(AssetRow(a)), Take(RevisionRow(a)), Take(RevisionRow(a))]
    case SetPolicy(a) => [Take(AssetRow(a)), Take(RevisionRow(a)), Take(RevisionRow(a))]
    case Publish(a, j, apply) =>
      [Take(AssetRow(a)), Take(RevisionRow(a)), Take(JobRow(j))] + (if apply then [Take(RevisionRow(a))] else [])
      + [Take(JobRow(j))]
    case Heartbeat(j) => [Take(JobRow(j))]
    case Fail(j) => [Take(JobRow(j))]
    case Claim(j) => [Take(JobRow(j)), Take(JobRow(j))]
    case ReadRules(tenant) => [Look(tenant), Seed(tenant)]
    case ChangeRules(tenant) => [Look(tenant), Seed(tenant), Take(ConfigRow(tenant)), Take(ConfigRow(tenant))]
    case ClaimSession(s) => [Take(SessionRow(s)), Take(SessionRow(s))]
    case SessionHeartbeat(s) => [Take(SessionRow(s))]
    case EditSession(s) => [Take(SessionRow(s)), Take(SessionRow(s))]
    case ProcessSession(s, tenant) => [Look(tenant), Seed(tenant), Take(SessionRow(s))]
    case RegisterSnapshot(s, a, tenant) =>
      [Take(SessionRow(s)), NeedsVerified(s, a, tenant), Take(AssetRow(a)), Take(AssetRow(a)), Take(SessionRow(s))]
  }

  // ---- states and steps ------------------------------------------------------------------------

  /** The committed rows that matter: tenants of sessions and assets, verified sessions, assets with snapshots. */
  datatype Rows = Rows(sessions: map<nat, string>, verified: set<nat>, assets: map<nat, string>, scannable: set<nat>,
                       seeded: set<string>)

  /** A transaction has made its first `done` actions; `unseeded` is what it saw when it looked. */
  datatype Txn = Txn(work: Work, done: nat, unseeded: bool, running: bool)

  datatype State = State(rows: Rows, txns: seq<Txn>)

  datatype Step =
    | Begin(work: Work)
    | Go(txn: nat)
    | Commit(txn: nat, verified: bool)
    | Rollback(txn: nat)
    | Upload(session: nat, tenant: string)
    | AddAsset(asset: nat, tenant: string)

  /** The lock an action asks for, if any. */
  function LockAt(t: Txn, i: nat): Option<Lock>
    requires i < |Program(t.work)|
  {
    match Program(t.work)[i]
    case Take(l) => Some(l)
    case Seed(tenant) => if t.unseeded then Some(SeedLock(tenant)) else None
    case _ => None
  }

  function Held(t: Txn): set<Lock> {
    if t.running then
      set i | 0 <= i < t.done && i < |Program(t.work)| && LockAt(t, i).Some? :: LockAt(t, i).value
    else {}
  }

  predicate Pending(t: Txn) {
    t.running && t.done < |Program(t.work)|
  }

  function Wanted(t: Txn): Option<Lock> {
    if Pending(t) then LockAt(t, t.done) else None
  }

  predicate Allowed(rows: Rows, a: Action) {
    match a
    case NeedsSnapshot(asset, tenant) => asset in rows.scannable && asset in rows.assets && rows.assets[asset] == tenant
    case NeedsVerified(session, target, tenant) =>
      && session in rows.verified && session in rows.sessions && rows.sessions[session] == tenant
      && target in rows.assets && rows.assets[target] == tenant
    case _ => true
  }

  predicate Free(ts: seq<Txn>, l: Lock, i: nat) {
    forall j :: 0 <= j < |ts| && j != i ==> l !in Held(ts[j])
  }

  predicate Enabled(s: State, i: nat) {
    && i < |s.txns| && Pending(s.txns[i]) && Allowed(s.rows, Program(s.txns[i].work)[s.txns[i].done])
    && (Wanted(s.txns[i]).Some? ==> Free(s.txns, Wanted(s.txns[i]).value, i))
  }

  function Gone(rows: Rows, t: Txn): Txn
    requires Pending(t)
  {
    var a := Program(t.work)[t.done];
    t.(done := t.done + 1, unseeded := if a.Look? then a.tenant !in rows.seeded else t.unseeded)
  }

  /**
   What a commit makes visible. Whoever holds the seeding lock leaves the tenant seeded; the rest is written by
   transactions that ran to their end. An import may end with its session verified or not.
   */
  function Committed(rows: Rows, t: Txn, verified: bool): Rows {
    var r := rows.(seeded := rows.seeded + set l <- Held(t) | l.SeedLock? :: l.tenant);
    if t.done < |Program(t.work)| then r
    else
      match t.work
      case ProcessSession(s, _) => if verified then r.(verified := r.verified + {s}) else r
      case RegisterSnapshot(s, a, _) => r.(verified := r.verified - {s}, scannable := r.scannable + {a})
      case ClaimSession(s) => r.(verified := r.verified - {s})
      case EditSession(s) => r.(verified := r.verified - {s})
      case _ => r
  }

  /** Imports are processed under the tenant of their session. */
  predicate Startable(rows: Rows, w: Work) {
    w.ProcessSession? ==> w.session in rows.sessions && rows.sessions[w.session] == w.tenant
  }

  /** A step that is not enabled changes nothing. The asset of a first registration is there before it asks for it. */
  function Next(s: State, step: Step): State {
    match step
    case Begin(w) => if Startable(s.rows, w) then s.(txns := s.txns + [Txn(w, 0, false, true)]) else s
    case Go(i) => if Enabled(s, i) then s.(txns := s.txns[i := Gone(s.rows, s.txns[i])]) else s
    case Commit(i, verified) =>
      if i < |s.txns| && s.txns[i].running
      then State(Committed(s.rows, s.txns[i], verified), s.txns[i := s.txns[i].(running := false)]) else s
    case Rollback(i) => if i < |s.txns| then s.(txns := s.txns[i := s.txns[i].(running := false)]) else s
    case Upload(session, tenant) =>
      if session in s.rows.sessions then s else s.(rows := s.rows.(sessions := s.rows.sessions[session := tenant]))
    case AddAsset(asset, tenant) =>
      if asset in s.rows.assets then s else s.(rows := s.rows.(assets := s.rows.assets[asset := tenant]))
  }

  function Reached(start: Rows, steps: seq<Step>): State {
    if |steps| == 0 then State(start, []) else Next(Reached(start, steps[..|steps| - 1]), steps[|steps| - 1])
  }

  // ---- who is seeded ---------------------------------------------------------------------------

  /**
   Tenants with a verified session or a snapshot are seeded; the migration that introduced rules saw to the old ones.
   */
  ghost predicate RowsFit(rows: Rows) {
    && (forall s <- rows.verified :: s in rows.sessions && rows.sessions[s] in rows.seeded)
    && (forall a <- rows.scannable :: a in rows.assets && rows.assets[a] in rows.seeded)
  }

  /** What a transaction has found out about its tenant so far. */
  ghost predicate TxnFits(rows: Rows, t: Txn) {
    match t.work
    case SubmitScan(_, tenant) => !t.unseeded && (t.done >= 1 ==> tenant in rows.seeded)
    case ProcessSession(s, tenant) =>
      s in rows.sessions && rows.sessions[s] == tenant && (t.done >= 1 && !t.unseeded ==> tenant in rows.seeded)
    case RegisterSnapshot(_, a, tenant) =>
      t.done >= 2 ==> tenant in rows.seeded && a in rows.assets && rows.assets[a] == tenant
    case _ => true
  }

  ghost predicate Fits(s: State) {
    RowsFit(s.rows) && forall t <- s.txns :: TxnFits(s.rows, t)
  }

  ghost predicate RowsGrow(a: Rows, b: Rows) {
    && a.seeded <= b.seeded
    && (forall s <- a.sessions :: s in b.sessions && b.sessions[s] == a.sessions[s])
    && (forall x <- a.assets :: x in b.assets && b.assets[x] == a.assets[x])
  }

  lemma FitsLater(a: Rows, b: Rows, t: Txn)
    requires TxnFits(a, t) && RowsGrow(a, b)
    ensures TxnFits(b, t)
  {
  }

  lemma GoneFits(s: State, i: nat)
    requires Fits(s) && Enabled(s, i)
    ensures TxnFits(s.rows, Gone(s.rows, s.txns[i]))
  {
    assert TxnFits(s.rows, s.txns[i]);
  }

  /** An import that commits has found its tenant seeded or has seeded it. */
  lemma ImportSeeds(rows: Rows, t: Txn)
    requires TxnFits(rows, t) && t.running && t.work.ProcessSession? && t.done >= 2
    ensures t.work.tenant in Committed(rows, t, true).seeded
  {
    if t.unseeded {
      assert LockAt(t, 1) == Some(SeedLock(t.work.tenant));
      assert SeedLock(t.work.tenant) in Held(t);
    }
  }

  lemma CommitFits(rows: Rows, t: Txn, verified: bool)
    requires RowsFit(rows) && TxnFits(rows, t) && t.running
    ensures RowsFit(Committed(rows, t, verified)) && RowsGrow(rows, Committed(rows, t, verified))
  {
    if t.work.ProcessSession? && t.done >= 2 { ImportSeeds(rows, t); }
    hide Held;
  }

  lemma StepFits(s: State, step: Step)
    requires Fits(s)
    ensures Fits(Next(s, step))
  {
    var n := Next(s, step);
    if step.Go? && Enabled(s, step.txn) { GoneFits(s, step.txn); }
    if step.Commit? && step.txn < |s.txns| && s.txns[step.txn].running {
      CommitFits(s.rows, s.txns[step.txn], step.verified);
    }
    hide Enabled, Gone, Committed, RowsFit;
    forall i | 0 <= i < |n.txns|
      ensures TxnFits(n.rows, n.txns[i])
    {
      if i < |s.txns| { FitsLater(s.rows, n.rows, s.txns[i]); }
    }
    hide TxnFits;
    if !step.Commit? { RowsStillFit(s, step); }
  }

  lemma RowsStillFit(s: State, step: Step)
    requires RowsFit(s.rows) && !step.Commit?
    ensures RowsFit(Next(s, step).rows)
  {
    hide Enabled, Gone;
  }

  /** In every reachable state tenants with a verified session or a snapshot are seeded. */
  lemma {:induction false} ReachedFits(start: Rows, steps: seq<Step>)
    requires RowsFit(start)
    ensures Fits(Reached(start, steps))
  {
    if |steps| > 0 {
      ReachedFits(start, steps[..|steps| - 1]);
      StepFits(Reached(start, steps[..|steps| - 1]), steps[|steps| - 1]);
    }
  }

  /** A scan never has anything to seed, so it neither waits for the seeding lock of its tenant nor holds it. */
  lemma ScansNeverSeed(start: Rows, steps: seq<Step>, i: nat)
    requires RowsFit(start) && i < |Reached(start, steps).txns| && Reached(start, steps).txns[i].work.SubmitScan?
    ensures var t := Reached(start, steps).txns[i];
            && (Wanted(t).Some? ==> !Wanted(t).value.SeedLock?)
            && forall l <- Held(t) :: !l.SeedLock?
  {
    ReachedFits(start, steps);
    var t := Reached(start, steps).txns[i];
    assert TxnFits(Reached(start, steps).rows, t);
    hide Reached;
  }

  // ---- locks -----------------------------------------------------------------------------------

  ghost predicate Exclusive(ts: seq<Txn>) {
    forall i, j :: 0 <= i < j < |ts| ==> Held(ts[i]) !! Held(ts[j])
  }

  lemma GoneHolds(rows: Rows, t: Txn)
    requires Pending(t)
    ensures Held(Gone(rows, t)) == Held(t) + (if Wanted(t).Some? then {Wanted(t).value} else {})
  {
    var u := Gone(rows, t);
    forall i | 0 <= i <= t.done
      ensures LockAt(u, i) == LockAt(t, i)
    {
      if Program(t.work)[t.done].Look? { NothingSeededBefore(t.work, t.done, i); }
    }
  }

  /** A tenant is looked at before anything is done about its seeding. */
  lemma NothingSeededBefore(w: Work, k: nat, i: nat)
    requires i <= k < |Program(w)| && Program(w)[k].Look?
    ensures !Program(w)[i].Seed?
  {
  }

  lemma ExclusiveStep(s: State, step: Step)
    requires Exclusive(s.txns)
    ensures Exclusive(Next(s, step).txns)
  {
    var us := Next(s, step).txns;
    if step.Go? && Enabled(s, step.txn) {
      GoneHolds(s.rows, s.txns[step.txn]);
    } else if (step.Commit? || step.Rollback?) && step.txn < |s.txns| {
      assert step.Rollback? || s.txns[step.txn].running ==> Held(us[step.txn]) == {};
    } else if step.Begin? && |us| > |s.txns| {
      assert Held(us[|s.txns|]) == {};
    }
    hide Held, Gone, Committed;
  }

  /** No lock ever has two holders. */
  lemma {:induction false} LocksAreExclusive(start: Rows, steps: seq<Step>)
    ensures Exclusive(Reached(start, steps).txns)
  {
    if |steps| > 0 {
      LocksAreExclusive(start, steps[..|steps| - 1]);
      ExclusiveStep(Reached(start, steps[..|steps| - 1]), steps[|steps| - 1]);
    }
  }

  /** SKIP LOCKED: claiming passes over locked rows instead of waiting. */
  predicate SkipsLocked(w: Work) {
    w.Claim? || w.ClaimSession?
  }

  ghost predicate Waits(ts: seq<Txn>, i: nat, j: nat) {
    && i < |ts| && Wanted(ts[i]).Some? && !SkipsLocked(ts[i].work)
    && j < |ts| && j != i && Wanted(ts[i]).value in Held(ts[j])
  }

  ghost predicate Blocked(ts: seq<Txn>, i: nat) {
    exists j: nat :: Waits(ts, i, j)
  }

  /** A walk along the wait-for graph. */
  ghost predicate WaitPath(ts: seq<Txn>, path: seq<nat>) {
    forall k :: 0 <= k < |path| - 1 ==> Waits(ts, path[k], path[k + 1])
  }

  /** Scans have nothing to seed. */
  ghost predicate SeedsFirst(ts: seq<Txn>) {
    forall t <- ts :: t.work.SubmitScan? ==> !t.unseeded
  }

  /** A new lock always ranks above every lock held. */
  lemma RequestsClimb(t: Txn, k: nat, i: nat)
    requires i < k < |Program(t.work)| && (t.work.SubmitScan? ==> !t.unseeded)
    requires LockAt(t, i).Some? && LockAt(t, k).Some?
    requires forall n :: 0 <= n < k ==> LockAt(t, n) != LockAt(t, k)
    ensures Rank(LockAt(t, i).value) < Rank(LockAt(t, k).value)
  {
    NotAskedBefore(t, k);
  }

  lemma NotAskedBefore(t: Txn, k: nat)
    requires k < |Program(t.work)| && forall n :: 0 <= n < k ==> LockAt(t, n) != LockAt(t, k)
    ensures (k > 0 ==> LockAt(t, 0) != LockAt(t, k)) && (k > 1 ==> LockAt(t, 1) != LockAt(t, k))
    ensures k > 2 ==> LockAt(t, 2) != LockAt(t, k)
  {
  }

  /** Whoever waits for a waiting transaction wants a lock of lower rank. */
  lemma WaitsClimb(ts: seq<Txn>, i: nat, j: nat)
    requires Exclusive(ts) && SeedsFirst(ts)
    requires Waits(ts, i, j) && Blocked(ts, j)
    ensures Rank(Wanted(ts[i]).value) < Rank(Wanted(ts[j]).value)
  {
    var k: nat :| Waits(ts, j, k);
    var t := ts[j];
    var n :| 0 <= n < t.done && n < |Program(t.work)| && LockAt(t, n) == Wanted(ts[i]);
    assert Held(ts[j]) !! Held(ts[k]);
    forall m | 0 <= m < t.done
      ensures LockAt(t, m) != LockAt(t, t.done)
    {
      assert LockAt(t, m).Some? ==> LockAt(t, m).value in Held(t);
    }
    hide Held, Program, Rank;
    RequestsClimb(t, t.done, n);
  }

  lemma {:induction false} PathsClimb(ts: seq<Txn>, path: seq<nat>)
    requires Exclusive(ts) && SeedsFirst(ts)
    requires |path| >= 3 && WaitPath(ts, path)
    ensures path[0] < |ts| && Wanted(ts[path[0]]).Some?
    ensures path[|path| - 2] < |ts| && Wanted(ts[path[|path| - 2]]).Some?
    ensures Rank(Wanted(ts[path[0]]).value) < Rank(Wanted(ts[path[|path| - 2]]).value)
    decreases |path|
  {
    hide Held, Exclusive, Rank, SeedsFirst, Wanted;
    assert Waits(ts, path[0], path[1]) && Waits(ts, path[1], path[2]);
    WaitsClimb(ts, path[0], path[1]);
    if |path| > 3 {
      var rest := path[1..];
      forall k | 0 <= k < |rest| - 1
        ensures Waits(ts, rest[k], rest[k + 1])
      {
        assert Waits(ts, path[k + 1], path[k + 2]);
      }
      PathsClimb(ts, rest);
    }
  }

  lemma ReachedOrdered(start: Rows, steps: seq<Step>)
    requires RowsFit(start)
    ensures Exclusive(Reached(start, steps).txns) && SeedsFirst(Reached(start, steps).txns)
  {
    LocksAreExclusive(start, steps);
    ReachedFits(start, steps);
    var s := Reached(start, steps);
    assert forall t <- s.txns :: TxnFits(s.rows, t);
    hide Reached, Exclusive;
  }

  /** In no reachable state do transactions wait for one another in a circle. */
  lemma NoDeadlockCycle(start: Rows, steps: seq<Step>, path: seq<nat>)
    requires RowsFit(start) && |path| >= 2 && WaitPath(Reached(start, steps).txns, path)
    ensures path[0] != path[|path| - 1]
  {
    var ts := Reached(start, steps).txns;
    ReachedOrdered(start, steps);
    hide Reached;
    assert Waits(ts, path[0], path[1]);
    if path[0] == path[|path| - 1] {
      var around := path + [path[1]];
      assert |path| >= 3;
      forall k | 0 <= k < |around| - 1
        ensures Waits(ts, around[k], around[k + 1])
      {
        if k < |path| - 1 { assert Waits(ts, path[k], path[k + 1]); }
      }
      hide Waits;
      PathsClimb(ts, around);
    }
  }

  lemma {:induction false} WaitsEnd(ts: seq<Txn>, i: nat) returns (path: seq<nat>)
    requires Exclusive(ts) && SeedsFirst(ts) && i < |ts|
    ensures |path| >= 1 && path[0] == i && WaitPath(ts, path)
    ensures !Blocked(ts, path[|path| - 1])
    ensures |path| <= (if Wanted(ts[i]).Some? then RANKS + 1 - Rank(Wanted(ts[i]).value) else 1)
    decreases if Wanted(ts[i]).Some? then RANKS - Rank(Wanted(ts[i]).value) else 0
  {
    hide Held, Exclusive, SeedsFirst, Rank, Wanted;
    if Blocked(ts, i) {
      var j: nat :| Waits(ts, i, j);
      if Blocked(ts, j) {
        WaitsClimb(ts, i, j);
        var rest := WaitsEnd(ts, j);
        path := [i] + rest;
      } else {
        path := [i, j];
      }
    } else {
      path := [i];
    }
  }

  /** Follow the waiting from any transaction: after at most five hops there is one that waits for nobody. */
  lemma SomebodyCanMove(start: Rows, steps: seq<Step>, i: nat) returns (path: seq<nat>)
    requires RowsFit(start) && i < |Reached(start, steps).txns|
    ensures 1 <= |path| <= RANKS + 1 && path[0] == i && WaitPath(Reached(start, steps).txns, path)
    ensures !Blocked(Reached(start, steps).txns, path[|path| - 1])
  {
    ReachedOrdered(start, steps);
    path := WaitsEnd(Reached(start, steps).txns, i);
  }
}
