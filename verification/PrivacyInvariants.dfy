/** What every transaction of the privacy system keeps, one transaction at a time. */
module PrivacyInvariants {
  import opened Wrappers
  import opened DetectorRules
  import opened PrivacyTables
  import opened PrivacyTransactions

  // ---- invariants of the tables ----------------------------------------------------------------

  /** Creation instants follow row order, so "newest" is well defined. */
  ghost predicate Chronological(t: Tables) {
    && (forall i, j :: 0 <= i < j < |t.jobs| ==> t.jobs[i].createdAt < t.jobs[j].createdAt)
    && (forall j <- t.jobs :: j.createdAt <= t.clock)
  }

  /** Only the last job of a snapshot and purpose can still be active. */
  ghost predicate OnlyLastActive(jobs: seq<Job>) {
    forall i, j :: 0 <= i < j < |jobs| && jobs[i].snapshot == jobs[j].snapshot && jobs[i].purpose == jobs[j].purpose ==>
      !Active(jobs[i])
  }

  ghost predicate Leased(j: Job) {
    && j.attempts == j.generation
    && (j.state.Running? ==> j.hold.Some? && j.generation >= 1)
    && (j.state.Failed? <==> j.error.Some?)
  }

  /** Findings of a scan belong to a complete APPLY job of the same snapshot. */
  ghost predicate Attributed(t: Tables, f: Finding)
  {
    f.scan.Some? ==>
      f.scan.value < |t.jobs| && var j := t.jobs[f.scan.value];
      j.purpose.Apply? && j.state.Complete? && j.snapshot == f.snapshot
  }

  /** A pin was read from the tenant's rules; while the config version stands, it still is what they say. */
  ghost predicate PinOf(p: Pinned, books: map<string, Book>, tenant: string, all: bool) {
    && tenant in books
    && p.configVersion <= books[tenant].version
    && (all && p.configVersion == books[tenant].version ==> p == Load(books[tenant]))
  }

  ghost predicate JobPinned(t: Tables, j: Job)
    requires Linked(t) && j.snapshot < |t.snapshots|
  {
    PinOf(j.pinned, t.books, TenantOf(t, j.snapshot), j.purpose.Apply?)
  }

  ghost predicate BooksWellFormed(books: map<string, Book>) {
    forall tenant <- books :: WellFormed(books[tenant])
  }

  ghost predicate AllLeased(jobs: seq<Job>) {
    forall j <- jobs :: Leased(j)
  }

  ghost predicate AllAttributed(t: Tables) {
    forall f <- t.findings :: Attributed(t, f)
  }

  ghost predicate AllPinned(t: Tables)
    requires Linked(t)
  {
    forall j <- t.jobs :: JobPinned(t, j)
  }

  ghost predicate Inv(t: Tables) {
    && Linked(t)
    && Chronological(t)
    && OnlyLastActive(t.jobs)
    && AllLeased(t.jobs)
    && AllAttributed(t)
    && AllPinned(t)
    && BooksWellFormed(t.books)
  }

  // ---- the two-state invariant -----------------------------------------------------------------

  /** What a job may become: its identity is fixed, its lease only moves up, and an ended job never moves again. */
  ghost predicate JobMoves(a: Job, b: Job) {
    && b.snapshot == a.snapshot && b.purpose == a.purpose && b.pinned == a.pinned && b.createdAt == a.createdAt
    && a.generation <= b.generation
    && (!Active(a) ==> b == a)
  }

  ghost predicate FindingMoves(a: Finding, b: Finding) {
    b.snapshot == a.snapshot && b.scan == a.scan && b.hit == a.hit
  }

  ghost predicate AssetMoves(a: Asset, b: Asset) {
    b.tenant == a.tenant && a.revision <= b.revision
  }

  ghost predicate BooksMove(a: map<string, Book>, b: map<string, Book>) {
    forall tenant <- a :: tenant in b && a[tenant].version <= b[tenant].version
                          && (a[tenant].version == b[tenant].version ==> a[tenant] == b[tenant])
  }

  ghost predicate Evolves(a: Tables, b: Tables) {
    && a.clock <= b.clock
    && BooksMove(a.books, b.books)
    && |a.assets| <= |b.assets| && (forall i :: 0 <= i < |a.assets| ==> AssetMoves(a.assets[i], b.assets[i]))
    && a.snapshots <= b.snapshots
    && |a.jobs| <= |b.jobs| && (forall i :: 0 <= i < |a.jobs| ==> JobMoves(a.jobs[i], b.jobs[i]))
    && |a.findings| <= |b.findings|
    && (forall i :: 0 <= i < |a.findings| ==> FindingMoves(a.findings[i], b.findings[i]))
    && a.events <= b.events
  }

  lemma EvolvesTransitive(a: Tables, b: Tables, c: Tables)
    requires Evolves(a, b) && Evolves(b, c)
    ensures Evolves(a, c)
  {
    forall i | 0 <= i < |a.jobs|
      ensures JobMoves(a.jobs[i], c.jobs[i])
    {
      assert JobMoves(b.jobs[i], c.jobs[i]);
    }
    forall i | 0 <= i < |a.assets|
      ensures AssetMoves(a.assets[i], c.assets[i])
    {
      assert AssetMoves(b.assets[i], c.assets[i]);
    }
    forall i | 0 <= i < |a.findings|
      ensures FindingMoves(a.findings[i], c.findings[i])
    {
      assert FindingMoves(b.findings[i], c.findings[i]);
    }
    assert b.events <= c.events;
  }

  lemma AttributionFrame(a: Tables, b: Tables)
    requires AllAttributed(a) && Evolves(a, b)
    requires forall f <- b.findings[|a.findings|..] :: Attributed(b, f)
    ensures AllAttributed(b)
  {
    hide WellFormed, Load, BooksMove;
    forall i | 0 <= i < |b.findings|
      ensures Attributed(b, b.findings[i])
    {
      if i < |a.findings| {
        assert Attributed(a, a.findings[i]) && FindingMoves(a.findings[i], b.findings[i]);
      } else {
        assert b.findings[i] in b.findings[|a.findings|..];
      }
    }
  }

  lemma PinFrame(a: Tables, b: Tables)
    requires Linked(a) && Linked(b) && AllPinned(a) && Evolves(a, b)
    requires forall j <- b.jobs[|a.jobs|..] :: JobPinned(b, j)
    ensures AllPinned(b)
  {
    hide WellFormed, Load;
    forall i | 0 <= i < |b.jobs|
      ensures JobPinned(b, b.jobs[i])
    {
      if i < |a.jobs| {
        assert JobPinned(a, a.jobs[i]) && JobMoves(a.jobs[i], b.jobs[i]);
        var s := a.jobs[i].snapshot;
        assert a.snapshots[s] == b.snapshots[s];
        assert AssetMoves(a.assets[AssetOf(a, s)], b.assets[AssetOf(a, s)]);
      } else {
        assert b.jobs[i] in b.jobs[|a.jobs|..];
      }
    }
  }

  /** An evolution keeps the invariant if its new rows and the jobs as a whole fit in. */
  lemma EvolutionKeeps(a: Tables, b: Tables)
    requires Inv(a) && Evolves(a, b) && Linked(b) && BooksWellFormed(b.books)
    requires Chronological(b) && OnlyLastActive(b.jobs) && AllLeased(b.jobs)
    requires forall f <- b.findings[|a.findings|..] :: Attributed(b, f)
    requires forall j <- b.jobs[|a.jobs|..] :: JobPinned(b, j)
    ensures Inv(b)
  {
    hide Attributed, JobPinned, WellFormed, Load;
    AttributionFrame(a, b);
    PinFrame(a, b);
    hide Linked, Chronological, OnlyLastActive, AllLeased, AllAttributed, AllPinned, BooksWellFormed, Evolves;
  }

  /** The mask of every registered snapshot stays put unless its asset revision or its tenant's config version moves. */
  ghost predicate MaskKept(a: Tables, b: Tables)
    requires Linked(a) && Linked(b)
  {
    forall s :: 0 <= s < |a.snapshots| && s < |b.snapshots| && PolicyVersion(a, s) == PolicyVersion(b, s)
                && ConfigVersion(a, TenantOf(a, s)) == ConfigVersion(b, TenantOf(b, s)) ==>
                  Protected(a, s) == Protected(b, s)
  }

  // ---- newest jobs -----------------------------------------------------------------------------

  lemma {:induction false} NewestSame(a: seq<Job>, b: seq<Job>, snapshot: nat, completeOnly: bool)
    requires |a| == |b|
    requires forall i :: 0 <= i < |a| ==> a[i].createdAt == b[i].createdAt
    requires forall i :: 0 <= i < |a| ==>
               (Candidate(a[i], snapshot, completeOnly) <==> Candidate(b[i], snapshot, completeOnly))
    ensures Newest(a, snapshot, completeOnly) == Newest(b, snapshot, completeOnly)
  {
    if |a| > 0 {
      NewestSame(a[..|a| - 1], b[..|b| - 1], snapshot, completeOnly);
    }
  }

  lemma NewestAppend(jobs: seq<Job>, j: Job, snapshot: nat, completeOnly: bool)
    requires !Candidate(j, snapshot, completeOnly)
    ensures Newest(jobs + [j], snapshot, completeOnly) == Newest(jobs, snapshot, completeOnly)
  {
    assert (jobs + [j])[..|jobs|] == jobs;
  }

  /** With creation instants in row order, the newest job is the last candidate. */
  lemma {:induction false} NewestIsLast(jobs: seq<Job>, snapshot: nat, completeOnly: bool)
    requires forall i, j :: 0 <= i < j < |jobs| ==> jobs[i].createdAt < jobs[j].createdAt
    ensures Newest(jobs, snapshot, completeOnly).None? ==> forall j <- jobs :: !Candidate(j, snapshot, completeOnly)
    ensures var n := Newest(jobs, snapshot, completeOnly); n.Some? ==>
              forall i :: n.value < i < |jobs| ==> !Candidate(jobs[i], snapshot, completeOnly)
  {
    if |jobs| > 0 {
      NewestIsLast(jobs[..|jobs| - 1], snapshot, completeOnly);
    }
  }

  // ---- one snapshot's mask ---------------------------------------------------------------------

  /** Everything the resolver reads about a snapshot is the same in both tables. */
  ghost predicate SameView(a: Tables, b: Tables, s: nat)
    requires Linked(a) && Linked(b) && s < |a.snapshots| && s < |b.snapshots|
  {
    && a.snapshots[s] == b.snapshots[s]
    && a.assets[AssetOf(a, s)].declared == b.assets[AssetOf(b, s)].declared
    && (forall f :: f in a.findings && f.snapshot == s <==> f in b.findings && f.snapshot == s)
    && Newest(a.jobs, s, true) == Newest(b.jobs, s, true)
    && (Verified(a, s) <==> Verified(b, s))
  }

  lemma SameMask(a: Tables, b: Tables, s: nat)
    requires Linked(a) && Linked(b) && s < |a.snapshots| && s < |b.snapshots|
    requires SameView(a, b, s)
    ensures Protected(a, s) == Protected(b, s)
  {
    forall c
      ensures DetectedColumn(a, s, c) <==> DetectedColumn(b, s, c)
    {
      forall f | f in a.findings && f.snapshot == s
        ensures Flags(a, f, s, c) <==> Flags(b, f, s, c)
      {
      }
    }
  }

  // ---- time ------------------------------------------------------------------------------------

  lemma ClockKeeps(t: Tables, later: nat)
    requires Inv(t) && t.clock <= later
    ensures var u := t.(clock := later); Inv(u) && Evolves(t, u) && MaskKept(t, u)
  {
    hide WellFormed, Load;
    var u := t.(clock := later);
    EvolutionKeeps(t, u);
    ClockMask(t, later);
  }

  lemma ClockMask(t: Tables, later: nat)
    requires Linked(t)
    ensures Linked(t.(clock := later)) && MaskKept(t, t.(clock := later))
  {
    hide Newest, WellFormed, Load;
    forall s | 0 <= s < |t.snapshots|
      ensures Protected(t, s) == Protected(t.(clock := later), s)
    {
      SameMask(t, t.(clock := later), s);
    }
  }

  // ---- rules -----------------------------------------------------------------------------------

  /** Replacing one tenant's book by a later one. */
  lemma BookKeeps(t: Tables, tenant: string, book: Book, more: seq<Event>)
    requires Inv(t) && WellFormed(book)
    requires tenant in t.books ==> t.books[tenant].version < book.version
    ensures var u := t.(books := t.books[tenant := book], events := t.events + more);
            Inv(u) && Evolves(t, u) && MaskKept(t, u)
  {
    hide WellFormed, Load;
    var u := t.(books := t.books[tenant := book], events := t.events + more);
    EvolutionKeeps(t, u);
    BookMask(t, tenant, book, more);
  }

  lemma BookMask(t: Tables, tenant: string, book: Book, more: seq<Event>)
    requires Linked(t)
    requires tenant in t.books ==> t.books[tenant].version < book.version
    ensures var u := t.(books := t.books[tenant := book], events := t.events + more);
            Linked(u) && MaskKept(t, u)
  {
    hide Newest;
    var u := t.(books := t.books[tenant := book], events := t.events + more);
    forall s | 0 <= s < |t.snapshots| && ConfigVersion(t, TenantOf(t, s)) == ConfigVersion(u, TenantOf(u, s))
      ensures Protected(t, s) == Protected(u, s)
    {
      assert TenantOf(t, s) != tenant;
      SameMask(t, u, s);
    }
  }

  lemma InitializeKeeps(t: Tables, tenant: string)
    requires Inv(t)
    ensures var u := EnsureInitialized(t, tenant); Inv(u) && Evolves(t, u) && MaskKept(t, u)
    ensures tenant in EnsureInitialized(t, tenant).books
  {
    hide WellFormed, Load;
    if tenant !in t.books {
      SeedWellFormed();
      BookKeeps(t, tenant, SeedBook(), []);
      assert EnsureInitialized(t, tenant) == t.(books := t.books[tenant := SeedBook()], events := t.events + []);
    }
  }

  lemma AddRuleKeeps(t: Tables, tenant: string, id: string, p: Creation)
    requires Inv(t)
    ensures var u := AddRule(t, tenant, id, p); Inv(u) && Evolves(t, u) && MaskKept(t, u)
  {
    hide WellFormed, Load;
    SeedWellFormed();
    var seeded := EnsureInitialized(t, tenant);
    var result := CreateRule(seeded.books[tenant], id, p);
    if result.Success? {
      CreateKeeps(seeded.books[tenant], id, p);
      BookKeeps(t, tenant, result.value, [RuleCreated(tenant, result.value.version)]);
      assert seeded.books[tenant := result.value] == t.books[tenant := result.value];
    }
  }

  lemma ReviseRuleKeeps(t: Tables, tenant: string, id: string, p: Revision)
    requires Inv(t)
    ensures var u := ReviseRule(t, tenant, id, p); Inv(u) && Evolves(t, u) && MaskKept(t, u)
  {
    hide WellFormed, Load;
    SeedWellFormed();
    var seeded := EnsureInitialized(t, tenant);
    var result := UpdateRule(seeded.books[tenant], id, p);
    if result.Success? {
      UpdateKeeps(seeded.books[tenant], id, p);
      BookKeeps(t, tenant, result.value, [RuleRevised(tenant, result.value.version)]);
      assert seeded.books[tenant := result.value] == t.books[tenant := result.value];
    }
  }

  // ---- a job moving through its lease ----------------------------------------------------------

  /** A job that was active moves on without becoming complete, and nothing else but the audit log changes. */
  ghost predicate LeaseMove(t: Tables, u: Tables, n: nat) {
    && n < |t.jobs| && |u.jobs| == |t.jobs|
    && t.events <= u.events
    && u == t.(jobs := t.jobs[n := u.jobs[n]], events := u.events)
    && JobMoves(t.jobs[n], u.jobs[n])
    && Active(t.jobs[n]) && (u.jobs[n].state.Complete? ==> t.jobs[n].purpose.Preview?)
    && Leased(u.jobs[n])
  }

  lemma LeaseMoveKeeps(t: Tables, u: Tables, n: nat)
    requires Inv(t) && LeaseMove(t, u, n)
    ensures Inv(u) && Evolves(t, u)
  {
    hide WellFormed, Load, Attributed, JobPinned;
    assert forall i :: 0 <= i < |u.jobs| && i != n ==> u.jobs[i] == t.jobs[i];
    EvolutionKeeps(t, u);
  }

  lemma LeaseMoveKeepsView(t: Tables, u: Tables, n: nat, s: nat)
    requires Linked(t) && Linked(u) && LeaseMove(t, u, n) && s < |t.snapshots|
    ensures SameView(t, u, s)
  {
    hide Newest, WellFormed, Load;
    NewestSame(t.jobs, u.jobs, s, true);
    NewestSame(t.jobs, u.jobs, s, false);
    var newest := Newest(t.jobs, s, false);
    if newest.Some? && newest.value != n {
      assert u.jobs[newest.value] == t.jobs[newest.value];
    }
  }

  lemma LeaseMoveKeepsMask(t: Tables, u: Tables, n: nat)
    requires Linked(t) && Linked(u) && LeaseMove(t, u, n)
    ensures MaskKept(t, u)
  {
    hide SameView, Newest, WellFormed, Load;
    forall s | 0 <= s < |t.snapshots|
      ensures Protected(t, s) == Protected(u, s)
    {
      LeaseMoveKeepsView(t, u, n, s);
      SameMask(t, u, s);
    }
  }

  lemma ClaimKeeps(t: Tables, owner: string, seconds: nat, locked: set<nat>)
    requires Inv(t)
    ensures var u := Claim(t, owner, seconds, locked).0; Inv(u) && Evolves(t, u) && MaskKept(t, u)
  {
    hide WellFormed, Load;
    var n := Oldest(t.jobs, t.clock, locked);
    if n.Some? {
      var u := Claim(t, owner, seconds, locked).0;
      assert Leased(t.jobs[n.value]);
      assert LeaseMove(t, u, n.value);
      LeaseMoveKeeps(t, u, n.value);
      LeaseMoveKeepsMask(t, u, n.value);
    }
  }

  lemma HeartbeatKeeps(t: Tables, l: Lease, seconds: nat)
    requires Inv(t)
    ensures var u := Heartbeat(t, l, seconds).0; Inv(u) && Evolves(t, u) && MaskKept(t, u)
  {
    hide WellFormed, Load;
    if Fenced(t, l) {
      var u := Heartbeat(t, l, seconds).0;
      assert Leased(t.jobs[l.scan]);
      assert LeaseMove(t, u, l.scan);
      LeaseMoveKeeps(t, u, l.scan);
      LeaseMoveKeepsMask(t, u, l.scan);
    }
  }

  lemma FailKeeps(t: Tables, l: Lease, code: ErrorCode)
    requires Inv(t)
    ensures var u := Fail(t, l, code).0; Inv(u) && Evolves(t, u) && MaskKept(t, u)
  {
    hide WellFormed, Load;
    if Fenced(t, l) {
      var u := Fail(t, l, code).0;
      assert Leased(t.jobs[l.scan]);
      assert LeaseMove(t, u, l.scan);
      LeaseMoveKeeps(t, u, l.scan);
      LeaseMoveKeepsMask(t, u, l.scan);
    }
  }

  // ---- asset revisions -------------------------------------------------------------------------

  /**
   A transaction that moves one asset's revision, and otherwise touches only findings, jobs of that asset's snapshots,
   declarations and policy of that asset, and the audit log.
   */
  ghost predicate BumpedOnly(t: Tables, u: Tables, asset: nat)
    requires Linked(t) && Linked(u)
  {
    && u.snapshots == t.snapshots && u.books == t.books
    && asset < |t.assets| && |u.assets| == |t.assets|
    && u.assets[asset].revision == t.assets[asset].revision + 1
    && u.assets[asset].tenant == t.assets[asset].tenant
    && (forall a :: 0 <= a < |t.assets| && a != asset ==> u.assets[a] == t.assets[a])
    && (forall f: Finding :: f.snapshot < |t.snapshots| && t.snapshots[f.snapshot].asset != asset ==>
          (f in t.findings <==> f in u.findings))
    && (forall s, completeOnly :: 0 <= s < |t.snapshots| && t.snapshots[s].asset != asset ==>
          Newest(u.jobs, s, completeOnly) == Newest(t.jobs, s, completeOnly))
    && (forall s :: 0 <= s < |t.snapshots| && t.snapshots[s].asset != asset && Newest(t.jobs, s, false).Some? ==>
          u.jobs[Newest(u.jobs, s, false).value] == t.jobs[Newest(t.jobs, s, false).value])
  }

  lemma BumpedOnlyKeepsMask(t: Tables, u: Tables, asset: nat)
    requires Linked(t) && Linked(u) && BumpedOnly(t, u, asset)
    ensures MaskKept(t, u)
  {
    forall s | 0 <= s < |t.snapshots| && PolicyVersion(t, s) == PolicyVersion(u, s)
      ensures Protected(t, s) == Protected(u, s)
    {
      hide SameView, Protected, Newest, WellFormed, Load;
      assert t.snapshots[s].asset != asset;
      OtherAssetSameView(t, u, asset, s);
      SameMask(t, u, s);
    }
  }

  /** The resolver reads nothing else of the snapshots of other assets. */
  lemma OtherAssetSameView(t: Tables, u: Tables, asset: nat, s: nat)
    requires Linked(t) && Linked(u) && BumpedOnly(t, u, asset) && s < |t.snapshots| && t.snapshots[s].asset != asset
    ensures s < |u.snapshots| && SameView(t, u, s)
  {
    hide Newest, WellFormed, Load;
    assert Newest(u.jobs, s, true) == Newest(t.jobs, s, true);
    assert Newest(u.jobs, s, false) == Newest(t.jobs, s, false);
    assert forall f :: f in t.findings && f.snapshot == s <==> f in u.findings && f.snapshot == s;
  }

  // ---- scan submission -------------------------------------------------------------------------

  lemma PinForIsPin(book: Book, sel: Selection)
    requires PinFor(book, sel).Success?
    ensures PinFor(book, sel).value.configVersion == book.version
    ensures sel.ApplyAll? ==> PinFor(book, sel).value == Load(book)
  {
  }

  lemma AppendJobKeeps(t: Tables, j: Job)
    requires Inv(t) && j.snapshot < |t.snapshots| && j.createdAt == t.clock && Leased(j) && JobPinned(t, j)
    requires forall k <- t.jobs :: k.createdAt < t.clock
    requires forall k <- t.jobs :: k.snapshot == j.snapshot && k.purpose == j.purpose ==> !Active(k)
    ensures var u := t.(jobs := t.jobs + [j]); Inv(u) && Evolves(t, u)
  {
    hide WellFormed, Load, Attributed, PinOf;
    EvolutionKeeps(t, t.(jobs := t.jobs + [j]));
  }

  lemma BumpKeeps(t: Tables, asset: nat)
    requires Inv(t) && asset < |t.assets|
    ensures Inv(Bump(t, asset)) && Evolves(t, Bump(t, asset))
  {
    hide WellFormed, Load, Attributed, PinOf;
    EvolutionKeeps(t, Bump(t, asset));
  }

  /** A preview job is invisible to the resolver. */
  lemma PreviewInvisible(t: Tables, j: Job)
    requires Linked(t) && Linked(t.(jobs := t.jobs + [j])) && j.purpose.Preview?
    ensures MaskKept(t, t.(jobs := t.jobs + [j]))
  {
    hide WellFormed, Load;
    var u := t.(jobs := t.jobs + [j]);
    forall s | 0 <= s < |t.snapshots|
      ensures Protected(t, s) == Protected(u, s)
    {
      NewestAppend(t.jobs, j, s, true);
      NewestAppend(t.jobs, j, s, false);
      SameMask(t, u, s);
    }
  }

  lemma QueueApplyBumps(t: Tables, j: Job)
    requires Linked(t) && Linked(t.(jobs := t.jobs + [j])) && j.snapshot < |t.snapshots|
    ensures MaskKept(t, Bump(t.(jobs := t.jobs + [j]), AssetOf(t, j.snapshot)))
  {
    hide WellFormed, Load;
    var asset := AssetOf(t, j.snapshot);
    var u := Bump(t.(jobs := t.jobs + [j]), asset);
    forall s, completeOnly | 0 <= s < |t.snapshots| && t.snapshots[s].asset != asset
      ensures Newest(u.jobs, s, completeOnly) == Newest(t.jobs, s, completeOnly)
    {
      NewestAppend(t.jobs, j, s, completeOnly);
    }
    BumpedOnlyKeepsMask(t, u, asset);
  }

  lemma BooksOnlyMove(a: Tables, b: Tables, c: Tables, tenant: string)
    requires Evolves(a, b) && Evolves(b, c) && ConfigVersion(a, tenant) == ConfigVersion(c, tenant)
    ensures ConfigVersion(a, tenant) == ConfigVersion(b, tenant)
  {
    hide WellFormed, Load;
    assert tenant in b.books ==> tenant in c.books;
    assert tenant in a.books ==> tenant in b.books;
  }

  lemma MaskKeptThrough(a: Tables, b: Tables, c: Tables)
    requires Linked(a) && Linked(b) && Linked(c) && Evolves(a, b) && Evolves(b, c) && MaskKept(a, b) && MaskKept(b, c)
    ensures MaskKept(a, c)
  {
    hide WellFormed, Load;
    forall s | 0 <= s < |a.snapshots| && PolicyVersion(a, s) == PolicyVersion(c, s)
               && ConfigVersion(a, TenantOf(a, s)) == ConfigVersion(c, TenantOf(c, s))
      ensures Protected(a, s) == Protected(c, s)
    {
      assert a.snapshots[s] == b.snapshots[s] == c.snapshots[s];
      var asset := a.snapshots[s].asset;
      assert AssetMoves(a.assets[asset], b.assets[asset]) && AssetMoves(b.assets[asset], c.assets[asset]);
      assert ConfigVersion(a, TenantOf(a, s)) == ConfigVersion(b, TenantOf(b, s)) by {
        BooksOnlyMove(a, b, c, TenantOf(a, s));
      }
      assert Protected(a, s) == Protected(b, s);
      assert Protected(b, s) == Protected(c, s);
    }
  }

  lemma CreateScanKeeps(t: Tables, snapshot: nat, sel: Selection)
    requires Inv(t) && forall k <- t.jobs :: k.createdAt < t.clock
    ensures var u := CreateScan(t, snapshot, sel).0; Inv(u) && Evolves(t, u) && MaskKept(t, u)
  {
    hide WellFormed, Load;
    if snapshot < |t.snapshots| && ActiveJob(t.jobs, snapshot, PurposeOf(sel)).None? {
      var tenant := TenantOf(t, snapshot);
      var seeded := EnsureInitialized(t, tenant);
      InitializeKeeps(t, tenant);
      var pin := PinFor(seeded.books[tenant], sel);
      if pin.Success? {
        PinForIsPin(seeded.books[tenant], sel);
        var job := Job(snapshot, PurposeOf(sel), Queued, pin.value, t.clock, None, 0, 0, None);
        AppendJobKeeps(seeded, job);
        var queued := seeded.(jobs := t.jobs + [job]);
        EvolvesTransitive(t, seeded, queued);
        if sel.ApplyAll? {
          BumpKeeps(queued, AssetOf(t, snapshot));
          QueueApplyBumps(seeded, job);
          EvolvesTransitive(seeded, queued, Bump(queued, AssetOf(t, snapshot)));
          EvolvesTransitive(t, seeded, Bump(queued, AssetOf(t, snapshot)));
          MaskKeptThrough(t, seeded, Bump(queued, AssetOf(t, snapshot)));
        } else {
          PreviewInvisible(seeded, job);
          MaskKeptThrough(t, seeded, queued);
        }
      }
    }
  }

  // ---- publication -----------------------------------------------------------------------------

  lemma PublishKeeps(t: Tables, l: Lease, found: seq<Hit>)
    requires Inv(t)
    ensures var u := Publish(t, l, found).0; Inv(u) && Evolves(t, u) && MaskKept(t, u)
  {
    hide WellFormed, Load;
    var (u, outcome) := Publish(t, l, found);
    if outcome.Published? {
      assert Leased(t.jobs[l.scan]);
      if t.jobs[l.scan].purpose.Apply? {
        PublishApplyKeeps(t, l, found);
        PublishApplyMask(t, l, found);
      } else {
        assert LeaseMove(t, u, l.scan);
        LeaseMoveKeeps(t, u, l.scan);
        LeaseMoveKeepsMask(t, u, l.scan);
      }
    }
  }

  lemma PublishApplyKeeps(t: Tables, l: Lease, found: seq<Hit>)
    requires Inv(t) && Publish(t, l, found).1.Published? && t.jobs[l.scan].purpose.Apply?
    ensures var u := Publish(t, l, found).0; Inv(u) && Evolves(t, u)
  {
    hide WellFormed, Load, Publish, Rows, JobPinned;
    var u := Publish(t, l, found).0;
    PublishedIsFenced(t, l, found);
    PublishedRows(t, l, found);
    assert Leased(t.jobs[l.scan]);
    assert forall i :: 0 <= i < |u.jobs| && i != l.scan ==> u.jobs[i] == t.jobs[i];
    forall f | f in u.findings
      ensures f.snapshot < |t.snapshots| && (f in t.findings || f in u.findings[|t.findings|..])
    {
    }
    EvolutionKeeps(t, u);
  }

  lemma PublishedIsFenced(t: Tables, l: Lease, found: seq<Hit>)
    requires Linked(t) && Publish(t, l, found).1.Published?
    ensures Fenced(t, l)
  {
    hide WriteFindings, Linked;
  }

  /** The shape of an APPLY publication: one job ends, one asset is bumped, findings and events are appended. */
  lemma PublishedRows(t: Tables, l: Lease, found: seq<Hit>)
    requires Inv(t) && Publish(t, l, found).1.Published? && t.jobs[l.scan].purpose.Apply?
    ensures var u := Publish(t, l, found).0;
            var snapshot := t.jobs[l.scan].snapshot;
            && u.findings == t.findings + Rows(snapshot, l.scan, found, DecisionsBefore(t, snapshot))
            && (forall r <- u.findings[|t.findings|..] :: r.snapshot == snapshot && r.scan == Some(l.scan))
            && |u.jobs| == |t.jobs| && u.snapshots == t.snapshots && u.books == t.books
            && u.events == t.events + [ScanApplied(l.scan, t.assets[AssetOf(t, snapshot)].revision + 1)]
            && u.jobs == t.jobs[l.scan := t.jobs[l.scan].(state := Complete, hold := None, error := None)]
            && u.assets == Bump(t, AssetOf(t, snapshot)).assets
            && u.clock == t.clock
  {
    hide WellFormed, Load, Decisions, Newest;
    var snapshot := t.jobs[l.scan].snapshot;
    var rows := Rows(snapshot, l.scan, found, DecisionsBefore(t, snapshot));
    var u := Publish(t, l, found).0;
    assert u.findings[|t.findings|..] == rows;
  }

  lemma PublishApplyMask(t: Tables, l: Lease, found: seq<Hit>)
    requires Inv(t) && Publish(t, l, found).1.Published? && t.jobs[l.scan].purpose.Apply?
    requires Linked(Publish(t, l, found).0)
    ensures MaskKept(t, Publish(t, l, found).0)
  {
    hide WellFormed, Load;
    var u := Publish(t, l, found).0;
    var asset := AssetOf(t, t.jobs[l.scan].snapshot);
    PublishedRows(t, l, found);
    forall f: Finding | f.snapshot < |t.snapshots| && t.snapshots[f.snapshot].asset != asset
      ensures f in t.findings <==> f in u.findings
    {
    }
    forall s, completeOnly | 0 <= s < |t.snapshots| && t.snapshots[s].asset != asset
      ensures Newest(u.jobs, s, completeOnly) == Newest(t.jobs, s, completeOnly)
    {
      NewestSame(u.jobs, t.jobs, s, completeOnly);
    }
    BumpedOnlyKeepsMask(t, u, asset);
  }

  // ---- reviews, declarations, policy -----------------------------------------------------------

  lemma UpdateStatusKeeps(t: Tables, finding: nat, expected: Status, confirm: bool, reviewer: string, reason: string)
    requires Inv(t)
    ensures var u := UpdateStatus(t, finding, expected, confirm, reviewer, reason).0;
            Inv(u) && Evolves(t, u) && MaskKept(t, u)
  {
    hide WellFormed, Load, JobPinned;
    var u := UpdateStatus(t, finding, expected, confirm, reviewer, reason).0;
    if finding < |t.findings| && t.findings[finding].status == expected {
      forall i | 0 <= i < |u.findings|
        ensures FindingMoves(t.findings[i], u.findings[i])
      {
      }
      EvolutionKeeps(t, u);
      ReviewedElsewhere(t, u, finding);
      BumpedOnlyKeepsMask(t, u, AssetOf(t, t.findings[finding].snapshot));
    }
  }

  lemma ReviewedElsewhere(t: Tables, u: Tables, finding: nat)
    requires Linked(t) && finding < |t.findings| && |u.findings| == |t.findings|
    requires u.findings == t.findings[finding := u.findings[finding]]
    requires FindingMoves(t.findings[finding], u.findings[finding])
    ensures forall f: Finding | f.snapshot < |t.snapshots| ::
              t.snapshots[f.snapshot].asset != AssetOf(t, t.findings[finding].snapshot) ==>
              (f in t.findings <==> f in u.findings)
  {
    forall f: Finding | f.snapshot < |t.snapshots|
           && t.snapshots[f.snapshot].asset != AssetOf(t, t.findings[finding].snapshot)
      ensures f in t.findings <==> f in u.findings
    {
      if f in t.findings {
        var i :| 0 <= i < |t.findings| && t.findings[i] == f;
        assert u.findings[i] == f;
      }
      if f in u.findings {
        var i :| 0 <= i < |u.findings| && u.findings[i] == f;
        assert t.findings[i] == f;
      }
    }
  }

  lemma AssetEditKeeps(t: Tables, u: Tables, asset: nat)
    requires Inv(t) && asset < |t.assets| && |u.assets| == |t.assets| && t.events <= u.events
    requires u == t.(assets := t.assets[asset := u.assets[asset]], events := u.events)
    requires u.assets[asset].tenant == t.assets[asset].tenant
    requires u.assets[asset].revision == t.assets[asset].revision + 1
    ensures Inv(u) && Evolves(t, u) && MaskKept(t, u)
  {
    hide WellFormed, Load, Attributed, JobPinned;
    EvolutionKeeps(t, u);
    BumpedOnlyKeepsMask(t, u, asset);
  }

  lemma ClassifyKeeps(t: Tables, asset: nat, snapshot: nat, expectedVersion: nat, changes: seq<Change>)
    requires Inv(t)
    ensures var u := Classify(t, asset, snapshot, expectedVersion, changes).0; Inv(u) && Evolves(t, u) && MaskKept(t, u)
  {
    hide WellFormed, Load;
    var (u, refusal) := Classify(t, asset, snapshot, expectedVersion, changes);
    if refusal.None? {
      AssetEditKeeps(t, u, asset);
    }
  }

  lemma SetPolicyKeeps(t: Tables, asset: nat, expectedVersion: nat, categories: seq<Category>)
    requires Inv(t)
    ensures var u := SetPolicy(t, asset, expectedVersion, categories).0; Inv(u) && Evolves(t, u) && MaskKept(t, u)
  {
    hide WellFormed, Load;
    var (u, done) := SetPolicy(t, asset, expectedVersion, categories);
    if done {
      AssetEditKeeps(t, u, asset);
    }
  }

  // ---- registration ----------------------------------------------------------------------------

  lemma AddSnapshotKeeps(t: Tables, tenant: string, target: Option<nat>, columns: seq<string>, importScan: ImportScan)
    requires Inv(t) && AddSnapshot(t, tenant, target, columns, importScan).Some?
    ensures var u := AddSnapshot(t, tenant, target, columns, importScan).value;
            && Inv(u) && Linked(u) && Evolves(t, u) && |u.snapshots| == |t.snapshots| + 1
               && TenantOf(u, |t.snapshots|) == tenant
            && u.jobs == t.jobs && u.books == t.books && u.clock == t.clock
            && u.findings == t.findings && u.events == t.events
  {
    hide WellFormed, Load, Attributed, PinOf;
    var u := AddSnapshot(t, tenant, target, columns, importScan).value;
    EvolutionKeeps(t, u);
  }

  lemma AddFindingsKeeps(t: Tables, snapshot: nat, scan: Option<nat>, hits: seq<Hit>)
    requires Inv(t) && snapshot < |t.snapshots|
    requires scan.Some? ==> scan.value < |t.jobs| && t.jobs[scan.value].purpose.Apply?
                            && t.jobs[scan.value].state.Complete? && t.jobs[scan.value].snapshot == snapshot
    ensures var u := AddFindings(t, snapshot, scan, hits); Inv(u) && Evolves(t, u)
  {
    hide WellFormed, Load, PinOf;
    var u := AddFindings(t, snapshot, scan, hits);
    assert forall f <- u.findings[|t.findings|..] :: f.snapshot == snapshot && f.scan == scan;
    EvolutionKeeps(t, u);
  }

  lemma RegisterKeeps(t: Tables, tenant: string, target: Option<nat>, columns: seq<string>, importScan: ImportScan,
                      pin: Option<Pinned>, found: seq<Hit>)
    requires Inv(t) && (forall k <- t.jobs :: k.createdAt < t.clock)
    requires pin.Some? ==> PinOf(pin.value, t.books, tenant, true)
    ensures var u := Register(t, tenant, target, columns, importScan, pin, found).0; Inv(u) && Evolves(t, u)
  {
    NoJobsYet(t);
    hide WellFormed, Load, FirstOfEach, Inv, Evolves, PinOf, Linked, AddSnapshot, AddImportJob, AddFindings;
    var added := AddSnapshot(t, tenant, target, columns, importScan);
    if added.Some? {
      AddSnapshotKeeps(t, tenant, target, columns, importScan);
      var n := |t.snapshots|;
      var (scanned, scan) := AddImportJob(added.value, n, pin);
      ImportJobKeeps(added.value, n, tenant, pin);
      var hits := FirstOfEach(found, scan.Some?);
      AddFindingsKeeps(scanned, n, scan, hits);
      EvolvesTransitive(t, added.value, scanned);
      EvolvesTransitive(t, scanned, AddFindings(scanned, n, scan, hits));
    } else {
      EvolvesReflexive(t);
    }
  }

  lemma NoJobsYet(t: Tables)
    requires Inv(t)
    ensures Linked(t) && forall k <- t.jobs :: k.snapshot != |t.snapshots|
  {
    hide WellFormed, Load;
  }

  lemma EvolvesReflexive(t: Tables)
    ensures Evolves(t, t)
  {
  }

  lemma ImportJobKeeps(t: Tables, snapshot: nat, tenant: string, pin: Option<Pinned>)
    requires Inv(t) && snapshot < |t.snapshots| && TenantOf(t, snapshot) == tenant
    requires forall k <- t.jobs :: k.createdAt < t.clock && k.snapshot != snapshot
    requires pin.Some? ==> PinOf(pin.value, t.books, tenant, true)
    ensures var (u, scan) := AddImportJob(t, snapshot, pin);
            && Inv(u) && Linked(u) && Evolves(t, u) && snapshot < |u.snapshots|
            && (scan.Some? ==> scan.value < |u.jobs| && u.jobs[scan.value].purpose.Apply?
                               && u.jobs[scan.value].state.Complete? && u.jobs[scan.value].snapshot == snapshot)
  {
    hide WellFormed, Load;
    if pin.Some? {
      AppendJobKeeps(t, Job(snapshot, Apply, Complete, pin.value, t.clock, None, 0, 0, None));
    }
  }

  /** A registration only appends rows, and those of findings and jobs belong to the new snapshot. */
  lemma RegisterAppends(t: Tables, tenant: string, target: Option<nat>, columns: seq<string>, importScan: ImportScan,
                        pin: Option<Pinned>, found: seq<Hit>)
    requires Linked(t)
    ensures var u := Register(t, tenant, target, columns, importScan, pin, found).0;
            && t.assets <= u.assets && t.snapshots <= u.snapshots && t.jobs <= u.jobs && t.findings <= u.findings
            && |u.jobs| <= |t.jobs| + 1 && u.books == t.books
            && (forall j <- u.jobs[|t.jobs|..] :: j.snapshot == |t.snapshots|)
            && (forall f <- u.findings[|t.findings|..] :: f.snapshot == |t.snapshots|)
  {
    hide WellFormed, Load, FirstOfEach;
  }

  lemma RegisterMask(t: Tables, tenant: string, target: Option<nat>, columns: seq<string>, importScan: ImportScan,
                     pin: Option<Pinned>, found: seq<Hit>)
    requires Linked(t) && Linked(Register(t, tenant, target, columns, importScan, pin, found).0)
    ensures MaskKept(t, Register(t, tenant, target, columns, importScan, pin, found).0)
  {
    hide WellFormed, Load, Register;
    var u := Register(t, tenant, target, columns, importScan, pin, found).0;
    RegisterAppends(t, tenant, target, columns, importScan, pin, found);
    forall s | 0 <= s < |t.snapshots|
      ensures Protected(t, s) == Protected(u, s)
    {
      AppendedElsewhere(t, u, s);
      SameMask(t, u, s);
    }
  }

  lemma AppendedElsewhere(t: Tables, u: Tables, s: nat)
    requires Linked(t) && Linked(u) && s < |t.snapshots|
    requires t.assets <= u.assets && t.snapshots <= u.snapshots && t.jobs <= u.jobs && t.findings <= u.findings
    requires |u.jobs| <= |t.jobs| + 1 && u.books == t.books
    requires forall j <- u.jobs[|t.jobs|..] :: j.snapshot == |t.snapshots|
    requires forall f <- u.findings[|t.findings|..] :: f.snapshot == |t.snapshots|
    ensures SameView(t, u, s)
  {
    hide WellFormed, Load;
    if |u.jobs| > |t.jobs| {
      var j := u.jobs[|t.jobs|];
      assert j in u.jobs[|t.jobs|..];
      NewestAppend(t.jobs, j, s, true);
      NewestAppend(t.jobs, j, s, false);
      assert u.jobs == t.jobs + [j];
    } else {
      assert u.jobs == t.jobs;
    }
    assert u.findings == t.findings + u.findings[|t.findings|..];
    assert u.snapshots[s] == t.snapshots[s];
    assert u.assets[AssetOf(t, s)] == t.assets[AssetOf(t, s)];
  }

  lemma InvLinked(t: Tables)
    requires Inv(t)
    ensures Linked(t)
  {
  }

  lemma RegisterKeepsAll(t: Tables, tenant: string, target: Option<nat>, columns: seq<string>, importScan: ImportScan,
                         pin: Option<Pinned>, found: seq<Hit>)
    requires Inv(t) && (forall k <- t.jobs :: k.createdAt < t.clock)
    requires pin.Some? ==> PinOf(pin.value, t.books, tenant, true)
    ensures var u := Register(t, tenant, target, columns, importScan, pin, found).0;
            Inv(u) && Evolves(t, u) && MaskKept(t, u)
  {
    hide Register, Evolves, PinOf;
    RegisterKeeps(t, tenant, target, columns, importScan, pin, found);
    InvLinked(Register(t, tenant, target, columns, importScan, pin, found).0);
    hide Inv;
    RegisterMask(t, tenant, target, columns, importScan, pin, found);
  }
}
