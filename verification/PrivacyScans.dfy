/** Scans as people and workers ask for them: what each submission, publication and failure answers and writes. */
module PrivacyScans {
  import opened Wrappers
  import opened Ordering
  import opened DetectorRules
  import opened PrivacyTables
  import T = PrivacyTransactions
  import opened PrivacySystem
  import opened PrivacyInvariants
  import opened PrivacyRuns

  // ---- which rules a scan uses -----------------------------------------------------------------

  /** Row `r` is what the tenant's rules say of its rule now, and it is switched on. */
  ghost predicate InForce(rows: seq<Rule>, r: Rule) {
    r in rows && r.body.enabled && forall q <- rows :: q.id == r.id ==> q.revision <= r.revision
  }

  /** Exactly the rules in force, each once, by rule id. */
  ghost predicate PinsAll(rules: seq<Rule>, rows: seq<Rule>) {
    && (forall r :: r in rules <==> InForce(rows, r))
    && (forall i, j :: 0 <= i < j < |rules| ==> rules[i].id != rules[j].id && Below(rules[i].id, rules[j].id))
  }

  /** Exactly the chosen revision of the rule, switched on. */
  ghost predicate PinsOne(rules: seq<Rule>, rows: seq<Rule>, id: string, revision: nat) {
    && |rules| == 1
    && exists r <- rows :: r.id == id && r.revision == revision && rules[0] == r.(body := r.body.(enabled := true))
  }

  lemma LoadPinsAll(b: Book)
    requires WellFormed(b)
    ensures PinsAll(Load(b).rules, b.rows) && Load(b).configVersion == b.version
  {
    LoadIsLatestEnabled(b);
    hide WellFormed, Load;
    forall r
      ensures r in Load(b).rules <==> InForce(b.rows, r)
    {
      assert r in Load(b).rules <==> r in multiset(Load(b).rules);
      assert r in multiset(LatestEnabled(b.rows)) <==> r in LatestEnabled(b.rows);
    }
  }

  lemma {:induction false} SelectOnly(rows: seq<Rule>, r: Rule)
    requires forall i, j :: 0 <= i < j < |rows| ==> rows[i] != rows[j]
    ensures Select(rows, {r}) == if r in rows then [r] else []
  {
    if |rows| > 0 {
      SelectOnly(rows[1..], r);
      assert rows[0] !in rows[1..];
    }
  }

  /** A rule has one row per revision. */
  lemma OneRow(rows: seq<Rule>, id: string, revision: nat, r: Rule)
    requires AppendOnly(rows) && r in rows && r.id == id && r.revision == revision
    ensures (set q <- rows | q.id == id && q.revision == revision) == {r}
    ensures Select(rows, {r}) == [r]
  {
    assert forall i, j :: 0 <= i < j < |rows| ==> rows[i] != rows[j];
    forall q | q in rows && q.id == id && q.revision == revision
      ensures q == r
    {
      var i :| 0 <= i < |rows| && rows[i] == q;
      var j :| 0 <= j < |rows| && rows[j] == r;
      assert i < j || j < i || i == j;
    }
    SelectOnly(rows, r);
  }

  lemma TryPinsOne(b: Book, id: string, revision: nat, r: Rule)
    requires AppendOnly(b.rows) && r in b.rows && r.id == id && r.revision == revision
    ensures T.PinFor(b, T.TryRule(id, revision)) == Success(Pinned([r.(body := r.body.(enabled := true))], b.version))
  {
    OneRow(b.rows, id, revision, r);
    OneRuleSorts(r.(body := r.body.(enabled := true)));
    hide AppendOnly, Sort, Select;
    assert seq(1, i requires 0 <= i < 1 => [r][i].(body := [r][i].body.(enabled := true)))
        == [r.(body := r.body.(enabled := true))];
  }

  lemma OneRuleSorts(r: Rule)
    ensures Sort([r], RuleLeq) == [r]
  {
    assert [r][1..] == [];
  }

  // ---- submission ------------------------------------------------------------------------------

  /** What a submission asks for: all rules, for the record, or one revision of one rule, as a trial. */
  function Wanted(sel: T.Selection): Purpose {
    match sel
    case ApplyAll => Apply
    case TryRule(_, _) => Preview
  }

  /** Job `n` of the snapshot is queued or running for this purpose. */
  ghost predicate UnderWay(jobs: seq<Job>, s: nat, purpose: Purpose, n: nat) {
    n < |jobs| && jobs[n].snapshot == s && jobs[n].purpose == purpose
    && (jobs[n].state == Queued || jobs[n].state == Running)
  }

  /** The tenant's rules, which a first submission seeds. */
  function RulesOf(t: Tables, tenant: string): Book {
    if tenant in t.books then t.books[tenant] else SeedBook()
  }

  /**
   The submission is answered with a scan under way: a trial only joins one that pins the very revision it asks for.
   */
  ghost predicate Joined(t: Tables, n: nat, sel: T.Selection, answer: Result<nat, T.ScanRefusal>)
    requires n < |t.jobs|
  {
    match sel
    case ApplyAll => answer == Success(n)
    case TryRule(id, revision) =>
      answer == if exists r <- t.jobs[n].pinned.rules :: r.id == id && r.revision == revision
                then Success(n) else Failure(T.ScanInProgress)
  }

  /** The new scan: queued now, under a pin of the tenant's rules as they are. */
  ghost predicate NewScan(j: Job, s: nat, sel: T.Selection, book: Book, now: nat) {
    && j == Job(s, Wanted(sel), Queued, j.pinned, now, None, 0, 0, None)
    && j.pinned.configVersion == book.version
    && match sel
       case ApplyAll => PinsAll(j.pinned.rules, book.rows)
       case TryRule(id, revision) => PinsOne(j.pinned.rules, book.rows, id, revision)
  }

  /** One scan is appended; only a scan that is to be applied moves the asset's revision. */
  ghost predicate Queues(t: Tables, u: Tables, s: nat, sel: T.Selection)
    requires Linked(t) && s < |t.snapshots|
  {
    var a := t.snapshots[s].asset;
    var book := RulesOf(t, t.assets[a].tenant);
    && |u.jobs| == |t.jobs| + 1 && u.jobs == t.jobs + [u.jobs[|t.jobs|]]
    && NewScan(u.jobs[|t.jobs|], s, sel, book, t.clock)
    && u.books == t.books[t.assets[a].tenant := book]
    && u.assets == (if sel.ApplyAll? then t.assets[a := t.assets[a].(revision := t.assets[a].revision + 1)]
                    else t.assets)
    && u == t.(jobs := u.jobs, books := u.books, assets := u.assets)
  }

  /** The submission asks to try a revision the tenant does not have. */
  ghost predicate NoSuchRule(book: Book, sel: T.Selection) {
    sel.TryRule? && forall r <- book.rows :: !(r.id == sel.ruleId && r.revision == sel.revision)
  }

  ghost predicate SubmissionAnswer(t: Tables, u: Tables, s: nat, sel: T.Selection, answer: Result<nat, T.ScanRefusal>)
    requires Linked(t)
  {
    if s >= |t.snapshots| then answer == Failure(T.ResourceNotFound) && u == t
    else
      && (forall n: nat | UnderWay(t.jobs, s, Wanted(sel), n) :: Joined(t, n, sel, answer) && u == t)
      && ((forall n: nat :: !UnderWay(t.jobs, s, Wanted(sel), n)) ==>
            if NoSuchRule(RulesOf(t, t.assets[t.snapshots[s].asset].tenant), sel)
            then answer == Failure(T.ResourceNotFound) && u == t
            else answer == Success(|t.jobs|) && Queues(t, u, s, sel))
  }

  lemma LastActiveIsOne(jobs: seq<Job>, i: nat, j: nat)
    requires OnlyLastActive(jobs) && i < |jobs| && j < |jobs| && Active(jobs[i]) && Active(jobs[j])
    requires jobs[i].snapshot == jobs[j].snapshot && jobs[i].purpose == jobs[j].purpose
    ensures i == j
  {
  }

  lemma ActiveIsUnderWay(jobs: seq<Job>, s: nat, sel: T.Selection)
    requires OnlyLastActive(jobs)
    ensures var r := T.ActiveJob(jobs, s, T.PurposeOf(sel));
            && (r.Some? ==> forall n: nat :: UnderWay(jobs, s, Wanted(sel), n) <==> n == r.value)
            && (r.None? ==> forall n: nat :: !UnderWay(jobs, s, Wanted(sel), n))
  {
    var r := T.ActiveJob(jobs, s, T.PurposeOf(sel));
    hide T.ActiveJob;
    forall n: nat | UnderWay(jobs, s, Wanted(sel), n)
      ensures r == Some(n)
    {
      assert jobs[n] in jobs;
      if r.Some? { LastActiveIsOne(jobs, r.value, n); }
    }
  }

  lemma PinForAnswers(b: Book, sel: T.Selection)
    requires WellFormed(b)
    ensures var r := T.PinFor(b, sel);
            if NoSuchRule(b, sel) then r == Failure(T.ResourceNotFound)
            else r.Success? && r.value.configVersion == b.version
                 && match sel
                    case ApplyAll => PinsAll(r.value.rules, b.rows)
                    case TryRule(id, revision) => PinsOne(r.value.rules, b.rows, id, revision)
  {
    if NoSuchRule(b, sel) {
    } else {
      match sel
      case ApplyAll =>
        LoadPinsAll(b);
        hide WellFormed, Load, PinsAll;
      case TryRule(id, revision) =>
        var r :| r in b.rows && r.id == id && r.revision == revision;
        TryPinsOne(b, id, revision, r);
        hide WellFormed, T.PinFor;
    }
  }

  lemma JoinStep(t: Tables, s: nat, sel: T.Selection)
    requires Linked(t) && s < |t.snapshots| && OnlyLastActive(t.jobs) && T.ActiveJob(t.jobs, s, T.PurposeOf(sel)).Some?
    ensures var (u, answer) := T.CreateScan(t, s, sel); SubmissionAnswer(t, u, s, sel, answer)
  {
    ActiveIsUnderWay(t.jobs, s, sel);
    hide T.ActiveJob, T.PurposeOf, UnderWay, OnlyLastActive, NoSuchRule, Queues, Linked, SeedBook, T.PinFor, T.Bump;
    assert UnderWay(t.jobs, s, Wanted(sel), T.ActiveJob(t.jobs, s, T.PurposeOf(sel)).value);
  }

  lemma QueueStep(t: Tables, s: nat, sel: T.Selection, pin: Pinned)
    requires Linked(t) && s < |t.snapshots| && T.ActiveJob(t.jobs, s, T.PurposeOf(sel)).None?
    requires T.PinFor(RulesOf(t, TenantOf(t, s)), sel) == Success(pin)
    requires NewScan(Job(s, Wanted(sel), Queued, pin, t.clock, None, 0, 0, None), s, sel, RulesOf(t, TenantOf(t, s)),
                     t.clock)
    ensures var (u, answer) := T.CreateScan(t, s, sel); answer == Success(|t.jobs|) && Queues(t, u, s, sel)
  {
    hide T.ActiveJob, T.PinFor, NewScan, Linked, SeedBook;
  }

  lemma RefuseStep(t: Tables, s: nat, sel: T.Selection)
    requires Linked(t) && s < |t.snapshots| && T.ActiveJob(t.jobs, s, T.PurposeOf(sel)).None?
    requires T.PinFor(RulesOf(t, TenantOf(t, s)), sel) == Failure(T.ResourceNotFound)
    ensures T.CreateScan(t, s, sel) == (t, Failure(T.ResourceNotFound))
  {
    hide T.ActiveJob, T.PinFor, Linked, SeedBook;
  }

  lemma SubmissionExactly(t: Tables, s: nat, sel: T.Selection)
    requires Linked(t) && OnlyLastActive(t.jobs) && BooksWellFormed(t.books)
    ensures var (u, answer) := T.CreateScan(t, s, sel); SubmissionAnswer(t, u, s, sel, answer)
  {
    if s < |t.snapshots| {
      if T.ActiveJob(t.jobs, s, T.PurposeOf(sel)).Some? {
        JoinStep(t, s, sel);
      } else {
        FreshStep(t, s, sel);
      }
    }
    hide T.ActiveJob, T.PinFor, UnderWay, OnlyLastActive, NoSuchRule, Queues, Linked, SeedBook, Joined;
  }

  lemma RulesWellFormed(t: Tables, tenant: string)
    requires BooksWellFormed(t.books)
    ensures WellFormed(RulesOf(t, tenant))
  {
    SeedWellFormed();
    hide WellFormed, SeedBook;
  }

  lemma FreshStep(t: Tables, s: nat, sel: T.Selection)
    requires Linked(t) && s < |t.snapshots| && OnlyLastActive(t.jobs) && BooksWellFormed(t.books)
    requires T.ActiveJob(t.jobs, s, T.PurposeOf(sel)).None?
    ensures var (u, answer) := T.CreateScan(t, s, sel); SubmissionAnswer(t, u, s, sel, answer)
  {
    hide WellFormed, SeedBook, T.PinFor, T.ActiveJob, UnderWay, OnlyLastActive, PinsAll, PinsOne, Linked;
    hide NoSuchRule, Queues, T.CreateScan, RulesOf, BooksWellFormed, Joined, T.PurposeOf;
    var book := RulesOf(t, TenantOf(t, s));
    RulesWellFormed(t, TenantOf(t, s));
    ActiveIsUnderWay(t.jobs, s, sel);
    PinForAnswers(book, sel);
    if NoSuchRule(book, sel) {
      RefuseStep(t, s, sel);
    } else {
      QueueStep(t, s, sel, T.PinFor(book, sel).value);
    }
  }

  lemma RunBooks(steps: seq<Step>)
    ensures var t := Advance(Run(steps)).db; Linked(t) && OnlyLastActive(t.jobs) && BooksWellFormed(t.books)
  {
    RunInv(steps);
    hide Run, WorldInv, Chronological, AllLeased, AllAttributed, AllPinned;
  }

  /**
   Every submission is answered and carried out as asked: with the scan under way for that snapshot and purpose if there
   is one and it fits, else by queueing one scan pinned to exactly the rules in force, or to exactly the revision to be
   tried and switched on.
   */
  lemma SubmissionAnswers(before: seq<Step>, s: nat, sel: T.Selection)
    ensures var t := Advance(Run(before)).db;
            && Linked(t)
            && var (u, answer) := T.CreateScan(t, s, sel);
               Run(before + [CreateScan(s, sel)]).db == u && SubmissionAnswer(t, u, s, sel, answer)
  {
    RunExtend(before, CreateScan(s, sel));
    RunBooks(before);
    hide Run, WorldInv, T.CreateScan, SubmissionAnswer, OnlyLastActive, BooksWellFormed, Linked;
    SubmissionExactly(Advance(Run(before)).db, s, sel);
  }

  // ---- what a worker's lease is good for -------------------------------------------------------

  /** The job runs under this very lease, which has not run out. */
  ghost predicate HoldsLease(t: Tables, l: T.Lease) {
    && l.scan < |t.jobs|
    && var j := t.jobs[l.scan];
       j.state == Running && j.hold.Some? && j.hold.value.owner == l.owner && j.generation == l.generation
       && t.clock <= j.hold.value.expiresAt
  }

  /** Two hits in one place that are the same detector's, or the same rule revision's. */
  predicate SameIdentity(a: Hit, b: Hit) {
    && a.column == b.column && a.path == b.path
    && ((a.code == b.code && a.detectorRevision == b.detectorRevision) || (a.rule.Some? && a.rule == b.rule))
  }

  ghost predicate Ambiguous(found: seq<Hit>) {
    exists i, j :: 0 <= i < j < |found| && SameIdentity(found[i], found[j])
  }

  /** The findings of an applied scan: one per hit, in order, of this scan. */
  ghost predicate FoundBy(rows: seq<Finding>, s: nat, scan: nat, found: seq<Hit>) {
    && |rows| == |found|
    && forall n :: 0 <= n < |found| ==> rows[n].snapshot == s && rows[n].scan == Some(scan) && rows[n].hit == found[n]
  }

  /** The scan is complete; if it was to be applied, its findings, the asset's next revision and the event are there. */
  ghost predicate Written(t: Tables, u: Tables, scan: nat, found: seq<Hit>)
    requires Linked(t) && scan < |t.jobs|
  {
    var j := t.jobs[scan];
    var a := t.snapshots[j.snapshot].asset;
    && u.jobs == t.jobs[scan := j.(state := Complete, hold := None, error := None)]
    && if j.purpose == Preview then u == t.(jobs := u.jobs)
       else
         && t.findings <= u.findings && FoundBy(u.findings[|t.findings|..], j.snapshot, scan, found)
         && u.events == t.events + [ScanApplied(scan, t.assets[a].revision + 1)]
         && u.assets == t.assets[a := t.assets[a].(revision := t.assets[a].revision + 1)]
         && u == t.(jobs := u.jobs, findings := u.findings, events := u.events, assets := u.assets)
  }

  ghost predicate PublicationAnswer(t: Tables, u: Tables, l: T.Lease, found: seq<Hit>, answer: T.Publication)
    requires Linked(t)
  {
    if !HoldsLease(t, l) then answer == T.LeaseLost && u == t
    else if t.jobs[l.scan].purpose == Apply && Ambiguous(found) then answer == T.Rejected && u == t
    else answer == T.Published && Written(t, u, l.scan, found)
  }

  lemma PublicationExactly(t: Tables, l: T.Lease, found: seq<Hit>)
    requires Linked(t)
    ensures var (u, answer) := T.Publish(t, l, found); PublicationAnswer(t, u, l, found, answer)
  {
    hide Linked, T.WriteFindings;
    AmbiguousIsNotInsertable(found);
    if T.Fenced(t, l) {
      WrittenRows(t, l.scan, found);
    }
    hide T.Insertable, Ambiguous;
  }

  lemma AmbiguousIsNotInsertable(found: seq<Hit>)
    ensures T.Insertable(found, true) <==> !Ambiguous(found)
  {
    assert forall a: Hit, b: Hit :: T.Collide(a, b, true) <==> SameIdentity(a, b);
    hide T.Collide, SameIdentity;
  }

  lemma WrittenRows(t: Tables, scan: nat, found: seq<Hit>)
    requires Linked(t) && scan < |t.jobs|
    ensures var u := T.WriteFindings(t, scan, found);
            var j := t.jobs[scan];
            var a := t.snapshots[j.snapshot].asset;
            && t.findings <= u.findings && FoundBy(u.findings[|t.findings|..], j.snapshot, scan, found)
            && u.events == t.events + [ScanApplied(scan, t.assets[a].revision + 1)]
            && u.assets == t.assets[a := t.assets[a].(revision := t.assets[a].revision + 1)]
            && u == t.(findings := u.findings, events := u.events, assets := u.assets)
  {
    hide Linked, T.DecisionsBefore, T.Inherited;
    var rows := T.Rows(t.jobs[scan].snapshot, scan, found, T.DecisionsBefore(t, t.jobs[scan].snapshot));
    assert T.WriteFindings(t, scan, found).findings[|t.findings|..] == rows;
  }

  /** Where the report of worker `i` leaves it: done when it has published or lost its lease. */
  ghost predicate Reported(w: World, v: World, i: nat, found: seq<Hit>, answer: T.Publication)
    requires Linked(w.db) && i < |w.workers|
  {
    var h := w.workers[i];
    && PublicationAnswer(w.db, v.db, h.lease, found, answer)
    && v == w.(db := v.db, workers := w.workers[i := match answer
                                                     case Published => h.(phase := Finished, published := true)
                                                     case LeaseLost => h.(phase := Finished)
                                                     case Rejected => h])
  }

  /** A report of what was found: only the current lease of a scanning worker writes, and it writes all of it. */
  lemma PublicationAnswers(before: seq<Step>, i: nat, found: seq<Hit>)
    ensures var w, v := Advance(Run(before)), Run(before + [Publish(i, found)]);
            && Linked(w.db)
            && if i < |w.workers| && w.workers[i].phase == Scanning then
                 exists answer :: Reported(w, v, i, found, answer)
               else v == w
  {
    var w := Advance(Run(before));
    RunExtend(before, Publish(i, found));
    hide Run, WorldInv;
    assert Linked(w.db);
    hide Linked, Advance;
    ReportStep(w, i, found);
  }

  lemma ReportStep(w: World, i: nat, found: seq<Hit>)
    requires Linked(w.db)
    ensures var v := Do(w, Publish(i, found));
            if i < |w.workers| && w.workers[i].phase == Scanning then exists answer :: Reported(w, v, i, found, answer)
            else v == w
  {
    hide Linked, T.Publish, Written, Ambiguous, HoldsLease;
    if i < |w.workers| && w.workers[i].phase == Scanning {
      assert w.workers[i := w.workers[i]] == w.workers;
      PublicationExactly(w.db, w.workers[i].lease, found);
      assert Reported(w, Do(w, Publish(i, found)), i, found, T.Publish(w.db, w.workers[i].lease, found).1);
    }
  }

  /** What a failed attempt leaves: another attempt in the queue, or a failed scan with its one event. */
  ghost predicate FailureAnswer(t: Tables, u: Tables, l: T.Lease, code: ErrorCode) {
    if !HoldsLease(t, l) then u == t
    else if (code == StorageUnavailable || code == ScanFailed) && l.attempt < 3 then
      u == t.(jobs := t.jobs[l.scan := t.jobs[l.scan].(state := Queued, hold := None)])
    else
      u == t.(jobs := t.jobs[l.scan := t.jobs[l.scan].(state := Failed, hold := None, error := Some(code))],
              events := t.events + [ScanGaveUp(l.scan, code)])
  }

  /**
   A failed attempt is put back in the queue when the failure may pass and fewer than three attempts were made; any
   other failure ends the scan at once. Only a scanning worker, or one claiming past the limit, gives up.
   */
  lemma FailureAnswers(before: seq<Step>, i: nat, code: ErrorCode)
    ensures var w, v := Advance(Run(before)), Run(before + [Fail(i, code)]);
            if i < |w.workers| && (w.workers[i].phase == Scanning
                || (w.workers[i].phase == Claimed && w.workers[i].lease.attempt > 3 && code == ScanFailed)) then
              && FailureAnswer(w.db, v.db, w.workers[i].lease, code)
              && v == w.(db := v.db, workers := w.workers[i := w.workers[i].(phase := Finished)])
            else v == w
  {
    var w := Advance(Run(before));
    RunExtend(before, Fail(i, code));
    hide Run, WorldInv, Linked;
  }

  /** A heartbeat extends the current lease from now, and does nothing for any other. */
  lemma HeartbeatAnswers(before: seq<Step>, i: nat, seconds: nat)
    ensures var w, v := Advance(Run(before)), Run(before + [Heartbeat(i, seconds)]);
            if i < |w.workers| && w.workers[i].phase != Finished && HoldsLease(w.db, w.workers[i].lease) then
              var l := w.workers[i].lease;
              v == w.(db := w.db.(jobs := w.db.jobs[l.scan := w.db.jobs[l.scan].(
                hold := Some(Hold(l.owner, w.db.clock + seconds)))]))
            else v == w
  {
    var w := Advance(Run(before));
    RunExtend(before, Heartbeat(i, seconds));
    hide Run, WorldInv, Linked;
  }
}
