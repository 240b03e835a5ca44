/** The mask of a snapshot in terms of rows and categories alone, and what a declaration does to it. */
module PrivacyMasks {
  import opened Wrappers
  import opened DetectorRules
  import opened PrivacyTables
  import T = PrivacyTransactions
  import opened PrivacySystem
  import opened PrivacyInvariants
  import opened PrivacyRuns

  // ---- what the rows say about a column --------------------------------------------------------

  predicate PersonalOrSecret(c: Category) {
    c == BasicPersonal || c == SensitivePersonal || c == ConfidentialBusiness
  }

  ghost predicate DeclaredPersonal(t: Tables, s: nat, column: string)
    requires Linked(t) && s < |t.snapshots|
  {
    var declared := t.assets[t.snapshots[s].asset].declared;
    column in declared && PersonalOrSecret(declared[column])
  }

  /** Job `n` is the last APPLY job of the snapshot, or the last complete one. */
  ghost predicate LastApply(jobs: seq<Job>, s: nat, n: nat) {
    && n < |jobs| && jobs[n].snapshot == s && jobs[n].purpose == Apply
    && forall m :: n < m < |jobs| && jobs[m].snapshot == s ==> jobs[m].purpose != Apply
  }

  ghost predicate LastComplete(jobs: seq<Job>, s: nat, n: nat) {
    && n < |jobs| && jobs[n].snapshot == s && jobs[n].purpose == Apply && jobs[n].state == Complete
    && forall m :: n < m < |jobs| && jobs[m].snapshot == s && jobs[m].purpose == Apply ==> jobs[m].state != Complete
  }

  /** No complete APPLY scan of the snapshot exists. */
  ghost predicate NeverComplete(jobs: seq<Job>, s: nat) {
    forall j <- jobs :: j.snapshot == s && j.purpose == Apply ==> j.state != Complete
  }

  /**
   A finding in the column that stands: confirmed, or undecided and made by the last complete scan or by none at all.
   */
  ghost predicate FoundIn(t: Tables, s: nat, column: string, f: nat) {
    && f < |t.findings| && t.findings[f].snapshot == s && t.findings[f].hit.column == column
    && var g := t.findings[f];
       || g.status == Confirmed
       || (g.status == Detected && g.scan.Some? && LastComplete(t.jobs, s, g.scan.value))
       || (g.status == Detected && g.scan.None? && NeverComplete(t.jobs, s))
  }

  /** Scanned to the end under the rules of today: by its last APPLY job, or for want of any at import. */
  ghost predicate ScannedNow(t: Tables, s: nat)
    requires Linked(t) && s < |t.snapshots|
  {
    var tenant := t.assets[t.snapshots[s].asset].tenant;
    if exists j <- t.jobs :: j.snapshot == s && j.purpose == Apply then
      exists n: nat :: LastApply(t.jobs, s, n) && t.jobs[n].state == Complete && tenant in t.books
                  && t.jobs[n].pinned.configVersion == t.books[tenant].version
    else
      match t.snapshots[s].importScan
      case Unavailable => false
      case Recorded(None) => true
      case Recorded(Some(version)) => tenant in t.books ==> t.books[tenant].version == version
  }

  /** The reasons to mask a column. */
  ghost predicate Masks(t: Tables, s: nat, column: string)
    requires Linked(t) && s < |t.snapshots|
  {
    DeclaredPersonal(t, s, column) || !ScannedNow(t, s) || exists f :: FoundIn(t, s, column, f)
  }

  lemma NewestApplyIs(t: Tables, s: nat, n: nat)
    requires Chronological(t)
    ensures Newest(t.jobs, s, false) == Some(n) <==> LastApply(t.jobs, s, n)
  {
    NewestIsLast(t.jobs, s, false);
    if LastApply(t.jobs, s, n) {
      assert Candidate(t.jobs[n], s, false);
      var m := Newest(t.jobs, s, false).value;
      assert m <= n;
    }
  }

  lemma NewestCompleteIs(t: Tables, s: nat, n: nat)
    requires Chronological(t)
    ensures Newest(t.jobs, s, true) == Some(n) <==> LastComplete(t.jobs, s, n)
    ensures Newest(t.jobs, s, true) == None <==> NeverComplete(t.jobs, s)
  {
    NewestIsLast(t.jobs, s, true);
    if LastComplete(t.jobs, s, n) {
      assert Candidate(t.jobs[n], s, true);
      var m := Newest(t.jobs, s, true).value;
      assert m <= n;
    }
  }

  lemma NewestFits(t: Tables, s: nat)
    requires Chronological(t)
    ensures Newest(t.jobs, s, false).None? <==> forall j <- t.jobs :: !(j.snapshot == s && j.purpose == Apply)
  {
    NewestIsLast(t.jobs, s, false);
  }

  lemma DeclaredAgrees(t: Tables, s: nat, column: string)
    requires Linked(t) && s < |t.snapshots|
    ensures DeclaredSensitive(t, s, column) <==> DeclaredPersonal(t, s, column)
  {
    hide Linked;
  }

  lemma VerifiedAgrees(t: Tables, s: nat)
    requires Linked(t) && s < |t.snapshots| && Chronological(t) && AllPinned(t)
    ensures Verified(t, s) <==> ScannedNow(t, s)
  {
    hide Newest, Load, Chronological, LastApply, WellFormed;
    NewestFits(t, s);
    var newest := Newest(t.jobs, s, false);
    if newest.Some? {
      var n := newest.value;
      NewestApplyIs(t, s, n);
      assert JobPinned(t, t.jobs[n]);
      forall m: nat | LastApply(t.jobs, s, m)
        ensures m == n
      {
        NewestApplyIs(t, s, m);
      }
    }
  }

  lemma DetectedAgrees(t: Tables, s: nat, column: string)
    requires Chronological(t)
    ensures DetectedColumn(t, s, column) <==> exists f :: FoundIn(t, s, column, f)
  {
    forall f: nat | f < |t.findings|
      ensures Flags(t, t.findings[f], s, column) <==> FoundIn(t, s, column, f)
    {
      FlagAgrees(t, s, column, f);
    }
    hide Flags, Chronological;
    if DetectedColumn(t, s, column) {
      var f :| f in t.findings && Flags(t, f, s, column);
      var i :| 0 <= i < |t.findings| && t.findings[i] == f;
      assert FoundIn(t, s, column, i);
    }
  }

  lemma FlagAgrees(t: Tables, s: nat, column: string, f: nat)
    requires Chronological(t) && f < |t.findings|
    ensures Flags(t, t.findings[f], s, column) <==> FoundIn(t, s, column, f)
  {
    var g := t.findings[f];
    NewestCompleteIs(t, s, if g.scan.Some? then g.scan.value else 0);
    hide Newest, Chronological, LastComplete, NeverComplete;
  }

  lemma MaskAgrees(t: Tables, s: nat, column: string)
    requires Inv(t) && Linked(t) && s < |t.snapshots| && column in t.snapshots[s].columns
    ensures column in Protected(t, s) <==> Masks(t, s, column)
  {
    assert Chronological(t) && AllPinned(t);
    hide Inv, Linked, Chronological, AllPinned, Verified, DeclaredSensitive, DetectedColumn, ScannedNow,
         DeclaredPersonal;
    DeclaredAgrees(t, s, column);
    VerifiedAgrees(t, s);
    DetectedAgrees(t, s, column);
  }

  /**
   In every reachable state, a column of a snapshot is masked exactly when it is declared to hold personal data or
   business secrets, a standing finding is in it, or the snapshot has not been scanned to the end under today's rules.
   */
  lemma MaskExactly(steps: seq<Step>, s: nat, column: string)
    requires s < |Run(steps).db.snapshots| && column in Run(steps).db.snapshots[s].columns
    ensures var t := Run(steps).db; column in Protected(t, s) <==> Masks(t, s, column)
  {
    RunInv(steps);
    hide Run, WorldInv, Inv, Linked, Protected, Masks;
    MaskAgrees(Run(steps).db, s, column);
  }

  // ---- declarations as people make them --------------------------------------------------------

  /** Step `k` of a run is a batch of declarations for asset `a` that fits a snapshot of it and the asset's revision. */
  ghost predicate Declares(steps: seq<Step>, k: nat, a: nat) {
    && k < |steps| && steps[k].Classify? && steps[k].asset == a
    && Accepts(Run(steps[..k]).db, a, steps[k].snapshot, steps[k].expectedVersion, steps[k].changes)
  }

  ghost predicate Accepts(t: Tables, a: nat, s: nat, version: nat, changes: seq<T.Change>) {
    && a < |t.assets| && s < |t.snapshots| && t.snapshots[s].asset == a
    && (forall c <- changes :: c.column in t.snapshots[s].columns)
    && t.assets[a].revision == version
  }

  /** Change `i` is the last of the batch about the column. */
  predicate LastChange(changes: seq<T.Change>, i: nat, column: string) {
    i < |changes| && changes[i].column == column && forall j :: i < j < |changes| ==> changes[j].column != column
  }

  predicate Untouched(changes: seq<T.Change>, column: string) {
    forall c <- changes :: c.column != column
  }

  /** What is declared of the column is this category, or nothing. */
  ghost predicate DeclaredAs(declared: map<string, Category>, column: string, category: Option<Category>) {
    match category
    case None => column !in declared
    case Some(c) => column in declared && declared[column] == c
  }

  /** What the first change of a batch leaves declared. */
  function First(declared: map<string, Category>, c: T.Change): map<string, Category> {
    if c.category.None? then declared - {c.column} else declared[c.column := c.category.value]
  }

  lemma {:induction false} UntouchedStays(declared: map<string, Category>, changes: seq<T.Change>, column: string)
    requires Untouched(changes, column)
    ensures column in T.Declare(declared, changes) <==> column in declared
    ensures column in declared ==> T.Declare(declared, changes)[column] == declared[column]
    decreases |changes|
  {
    if |changes| > 0 {
      UntouchedStays(First(declared, changes[0]), changes[1..], column);
    }
  }

  lemma {:induction false} LastChangeWins(declared: map<string, Category>, changes: seq<T.Change>, i: nat,
                                          column: string)
    requires LastChange(changes, i, column)
    ensures DeclaredAs(T.Declare(declared, changes), column, changes[i].category)
    decreases |changes|
  {
    var next := First(declared, changes[0]);
    assert T.Declare(declared, changes) == T.Declare(next, changes[1..]);
    if i == 0 {
      UntouchedStays(next, changes[1..], column);
    } else {
      LastChangeWins(next, changes[1..], i - 1, column);
    }
  }

  /** What an accepted batch does: the asset declares what the batch says, and no other asset declares anything new. */
  lemma ClassifyStep(w: World, a: nat, s: nat, version: nat, changes: seq<T.Change>)
    requires Linked(w.db)
    ensures var v := Do(w, Classify(a, s, version, changes));
            && |v.db.assets| == |w.db.assets|
            && if Accepts(w.db, a, s, version, changes) then
                 && v.db.assets[a].declared == T.Declare(w.db.assets[a].declared, changes)
                 && v.db.assets[a].revision == w.db.assets[a].revision + 1
                 && forall b :: 0 <= b < |w.db.assets| && b != a ==> v.db.assets[b] == w.db.assets[b]
               else v.db == w.db
  {
    hide Linked;
  }

  /** What asset `a` declares is the same in both tables. */
  ghost predicate SameWord(t: Tables, u: Tables, a: nat) {
    a < |t.assets| && a < |u.assets| && u.assets[a].declared == t.assets[a].declared
  }

  lemma PublicationDeclaresNothing(t: Tables, l: T.Lease, found: seq<Hit>, a: nat)
    requires Linked(t) && a < |t.assets|
    ensures SameWord(t, T.Publish(t, l, found).0, a)
  {
    hide Linked, T.Rows, T.DecisionsBefore;
  }

  lemma SubmissionDeclaresNothing(t: Tables, s: nat, sel: T.Selection, a: nat)
    requires Linked(t) && a < |t.assets|
    ensures SameWord(t, T.CreateScan(t, s, sel).0, a)
  {
    hide Linked, SeedBook, T.PinFor;
  }

  lemma ImportDeclaresNothing(t: Tables, tenant: string, target: Option<nat>, columns: seq<string>,
                              importScan: ImportScan, pin: Option<Pinned>, found: seq<Hit>, a: nat)
    requires Linked(t) && a < |t.assets|
    ensures SameWord(t, T.Register(t, tenant, target, columns, importScan, pin, found).0, a)
  {
    hide Linked, T.FirstOfEach;
  }

  lemma ReviewDeclaresNothing(t: Tables, f: nat, expected: Status, confirm: bool, who: string, why: string, a: nat)
    requires Linked(t) && a < |t.assets|
    ensures SameWord(t, T.UpdateStatus(t, f, expected, confirm, who, why).0, a)
  {
    hide Linked;
  }

  lemma OtherStepsDeclareNothing(t: Tables, a: nat)
    requires a < |t.assets|
    ensures forall tenant, id, p :: SameWord(t, T.AddRule(t, tenant, id, p), a)
    ensures forall tenant, id, p :: SameWord(t, T.ReviseRule(t, tenant, id, p), a)
    ensures forall b, version, categories :: SameWord(t, T.SetPolicy(t, b, version, categories).0, a)
    ensures forall owner, seconds, locked :: SameWord(t, T.Claim(t, owner, seconds, locked).0, a)
    ensures forall l, seconds :: SameWord(t, T.Heartbeat(t, l, seconds).0, a)
    ensures forall l, code :: SameWord(t, T.Fail(t, l, code).0, a)
  {
    hide SeedBook, CreateRule, UpdateRule, T.Remask, T.MaskedCategories, T.Oldest;
  }

  lemma WritingStepsDeclareNothing(w: World, step: Step, a: nat)
    requires Linked(w.db) && a < |w.db.assets|
    requires step.Publish? || step.CreateScan? || step.Register? || step.UpdateStatus?
    ensures SameWord(w.db, Do(w, step).db, a)
  {
    hide Linked, T.Publish, T.CreateScan, T.Register, T.UpdateStatus;
    var t := w.db;
    match step
    case Publish(i, found) => if i < |w.workers| { PublicationDeclaresNothing(t, w.workers[i].lease, found, a); }
    case CreateScan(s, sel) => SubmissionDeclaresNothing(t, s, sel, a);
    case Register(tenant, target, columns, importScan, pin, found) =>
      ImportDeclaresNothing(t, tenant, target, columns, importScan, None, found, a);
      if pin.Some? && pin.value < |w.pins| {
        ImportDeclaresNothing(t, tenant, target, columns, importScan, Some(w.pins[pin.value].pinned), found, a);
      }
    case UpdateStatus(f, expected, confirm, who, why) => ReviewDeclaresNothing(t, f, expected, confirm, who, why, a);
  }

  lemma QuietStepsDeclareNothing(w: World, step: Step, a: nat)
    requires Linked(w.db) && a < |w.db.assets|
    requires !step.Publish? && !step.CreateScan? && !step.Register? && !step.UpdateStatus? && !step.Classify?
    ensures SameWord(w.db, Do(w, step).db, a)
  {
    hide Linked, T.AddRule, T.ReviseRule, T.SetPolicy, T.Claim, T.Heartbeat, T.Fail, SeedBook, Load, Protected;
    OtherStepsDeclareNothing(w.db, a);
  }

  lemma BatchDeclares(w: World, step: Step, a: nat)
    requires Linked(w.db) && a < |w.db.assets| && step.Classify?
    requires !(step.asset == a && Accepts(w.db, a, step.snapshot, step.expectedVersion, step.changes))
    ensures SameWord(w.db, Do(w, step).db, a)
  {
    hide Linked, Do, Accepts;
    ClassifyStep(w, step.asset, step.snapshot, step.expectedVersion, step.changes);
  }

  /** A step that is no accepted batch for the asset declares nothing about it. */
  lemma StepKeepsDeclared(w: World, step: Step, a: nat)
    requires Linked(w.db) && a < |w.db.assets|
    requires !(step.Classify? && step.asset == a && Accepts(w.db, a, step.snapshot, step.expectedVersion, step.changes))
    ensures SameWord(w.db, Do(w, step).db, a)
  {
    hide Linked, Do, Accepts, SameWord;
    if step.Classify? {
      BatchDeclares(w, step, a);
    } else if step.Publish? || step.CreateScan? || step.Register? || step.UpdateStatus? {
      WritingStepsDeclareNothing(w, step, a);
    } else {
      QuietStepsDeclareNothing(w, step, a);
    }
  }

  /** Step `step` keeps what is declared of the column, unless it is an accepted batch that changes it. */
  lemma NextKeepsDeclared(w: World, step: Step, a: nat, column: string, category: Option<Category>)
    requires Linked(w.db) && Linked(Advance(w).db) && a < |w.db.assets|
    requires DeclaredAs(w.db.assets[a].declared, column, category)
    requires !(step.Classify? && step.asset == a && !Untouched(step.changes, column)
               && Accepts(w.db, a, step.snapshot, step.expectedVersion, step.changes))
    ensures a < |Next(w, step).db.assets| && DeclaredAs(Next(w, step).db.assets[a].declared, column, category)
  {
    hide Linked, Do;
    var v := Advance(w);
    if step.Classify? && step.asset == a && Accepts(w.db, a, step.snapshot, step.expectedVersion, step.changes) {
      UntouchedStays(w.db.assets[a].declared, step.changes, column);
      ClassifyStep(v, a, step.snapshot, step.expectedVersion, step.changes);
    } else {
      StepKeepsDeclared(v, step, a);
    }
  }

  lemma AdvanceLinked(steps: seq<Step>)
    ensures Linked(Run(steps).db) && Linked(Advance(Run(steps)).db)
  {
    hide Run, WorldInv;
  }

  lemma WordIsTaken(front: seq<Step>, last: Step, a: nat, i: nat, column: string)
    requires Declares(front + [last], |front|, a) && LastChange(last.changes, i, column)
    ensures a < |Run(front + [last]).db.assets|
    ensures DeclaredAs(Run(front + [last]).db.assets[a].declared, column, last.changes[i].category)
  {
    hide Run, WorldInv, Do, DeclaredAs, LastChange, Linked;
    var w := Advance(Run(front));
    RunExtend(front, last);
    AdvanceLinked(front);
    assert (front + [last])[..|front|] == front;
    LastChangeWins(w.db.assets[a].declared, last.changes, i, column);
    ClassifyStep(w, a, last.snapshot, last.expectedVersion, last.changes);
  }

  lemma WordIsKept(front: seq<Step>, last: Step, a: nat, column: string, category: Option<Category>)
    requires a < |Run(front).db.assets| && DeclaredAs(Run(front).db.assets[a].declared, column, category)
    requires Declares(front + [last], |front|, a) ==> Untouched(last.changes, column)
    ensures a < |Run(front + [last]).db.assets|
    ensures DeclaredAs(Run(front + [last]).db.assets[a].declared, column, category)
  {
    hide Run, WorldInv, Do, DeclaredAs, Untouched, Linked, Accepts;
    RunExtend(front, last);
    AdvanceLinked(front);
    assert (front + [last])[..|front|] == front;
    NextKeepsDeclared(Run(front), last, a, column, category);
  }

  /** The last accepted word on a column is what the asset declares of it. */
  lemma {:induction false} DeclarationStands(steps: seq<Step>, k: nat, a: nat, i: nat, column: string)
    requires Declares(steps, k, a) && LastChange(steps[k].changes, i, column)
    requires forall m :: k < m < |steps| && Declares(steps, m, a) ==> Untouched(steps[m].changes, column)
    ensures a < |Run(steps).db.assets|
    ensures DeclaredAs(Run(steps).db.assets[a].declared, column, steps[k].changes[i].category)
    decreases |steps|
  {
    hide Run, WorldInv, Accepts, DeclaredAs, Untouched;
    var n := |steps| - 1;
    var front, last := steps[..n], steps[n];
    assert front + [last] == steps;
    if k == n {
      WordIsTaken(front, last, a, i, column);
    } else {
      FrontDeclares(steps, k, a, column);
      DeclarationStands(front, k, a, i, column);
      WordIsKept(front, last, a, column, steps[k].changes[i].category);
    }
  }

  lemma FrontDeclares(steps: seq<Step>, k: nat, a: nat, column: string)
    requires |steps| > 0 && k < |steps| - 1 && Declares(steps, k, a)
    requires forall m :: k < m < |steps| && Declares(steps, m, a) ==> Untouched(steps[m].changes, column)
    ensures var front := steps[..|steps| - 1];
            && Declares(front, k, a)
            && forall m :: k < m < |front| && Declares(front, m, a) ==> Untouched(front[m].changes, column)
  {
    hide Run, Untouched, Accepts;
    var front := steps[..|steps| - 1];
    assert front[..k] == steps[..k];
    forall m | k < m < |front| && Declares(front, m, a)
      ensures Untouched(front[m].changes, column)
    {
      assert front[..m] == steps[..m];
      assert Declares(steps, m, a);
    }
  }

  /**
   What people declare decides. As long as the last accepted word on a column of an asset is that it holds basic or
   sensitive personal data or confidential business data, the column is masked in every snapshot of the asset, whatever
   else has run; while it is that the data are standard, or that there is no declaration, the column is masked exactly
   for a standing finding or for want of a scan under today's rules.
   */
  lemma DeclarationDecides(steps: seq<Step>, k: nat, a: nat, i: nat, column: string, s: nat)
    requires Declares(steps, k, a) && LastChange(steps[k].changes, i, column)
    requires forall m :: k < m < |steps| && Declares(steps, m, a) ==> Untouched(steps[m].changes, column)
    requires var t := Run(steps).db;
             s < |t.snapshots| && t.snapshots[s].asset == a && column in t.snapshots[s].columns
    ensures var t := Run(steps).db;
            match steps[k].changes[i].category
            case Some(BasicPersonal) => column in Protected(t, s)
            case Some(SensitivePersonal) => column in Protected(t, s)
            case Some(ConfidentialBusiness) => column in Protected(t, s)
            case Some(StandardData) =>
              column in Protected(t, s) <==> !ScannedNow(t, s) || exists f :: FoundIn(t, s, column, f)
            case None =>
              column in Protected(t, s) <==> !ScannedNow(t, s) || exists f :: FoundIn(t, s, column, f)
  {
    hide Run, WorldInv, Linked, Protected, ScannedNow, FoundIn, Declares, LastChange, Untouched;
    DeclarationStands(steps, k, a, i, column);
    MaskExactly(steps, s, column);
  }
}
