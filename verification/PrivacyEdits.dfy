/**
 Rules, declarations, policies and imports as people ask for them: when an edit is accepted and what it then leaves.
 */
module PrivacyEdits {
  import opened Wrappers
  import opened DetectorRules
  import opened PrivacyTables
  import T = PrivacyTransactions
  import opened PrivacySystem
  import opened PrivacyRuns
  import opened PrivacyMasks
  import opened PrivacyScans

  // ---- rules -----------------------------------------------------------------------------------

  ghost function EnabledCount(b: Book): nat {
    |set r <- b.rows | InForce(b.rows, r)|
  }

  lemma EnabledAgree(b: Book)
    ensures LatestEnabled(b.rows) == set r <- b.rows | InForce(b.rows, r)
  {
  }

  /** A new rule: refused for a code in use, a hundred rules switched on, or an id in use, in this order. */
  ghost predicate CreationAnswer(b: Book, id: string, p: Creation, r: Result<Book, Refusal>) {
    if exists q <- b.rows :: q.code == p.code then r == Failure(CodeConflict)
    else if p.body.enabled && EnabledCount(b) >= 100 then r == Failure(LimitExceeded)
    else if exists q <- b.rows :: q.id == id then r == Failure(IdTaken)
    else
      r == Success(Book(b.version + 1,
                        b.rows + [Rule(id, 1, p.code, if p.onColumnNames then ColumnName else ValuePattern,
                                       Some(p.pattern), p.body)]))
  }

  /** The row of the rule that no other row of it supersedes. */
  ghost predicate LastRow(rows: seq<Rule>, id: string, r: Rule) {
    r in rows && r.id == id && forall q <- rows :: q.id == id ==> q.revision <= r.revision
  }

  ghost predicate RevisionAnswerFor(b: Book, id: string, p: Revision, last: Rule, r: Result<Book, Refusal>) {
    if last.revision != p.expectedRevision then r == Failure(RevisionConflict)
    else if last.kind.Builtin? <==> p.pattern.Some? then r == Failure(InvalidRule)
    else if p.body.enabled && !last.body.enabled && EnabledCount(b) >= 100 then r == Failure(LimitExceeded)
    else
      r == Success(Book(b.version + 1,
                        b.rows + [Rule(id, last.revision + 1, last.code, last.kind, p.pattern, p.body)]))
  }

  /** A revision: the next row of its rule, under the same code and kind, or the first refusal that applies. */
  ghost predicate RevisionAnswer(b: Book, id: string, p: Revision, r: Result<Book, Refusal>) {
    && ((forall q <- b.rows :: q.id != id) ==> r == Failure(NotFound))
    && (forall last | LastRow(b.rows, id, last) :: RevisionAnswerFor(b, id, p, last, r))
    && ((exists q <- b.rows :: q.id == id) ==> exists last :: LastRow(b.rows, id, last))
  }

  lemma CreationExactly(b: Book, id: string, p: Creation)
    ensures var r := CreateRule(b, id, p);
            CreationAnswer(b, id, p, r) && (r.Success? ==> r.value.version == b.version + 1)
  {
    EnabledAgree(b);
    hide InForce, LatestEnabled;
  }

  lemma LastRowUnique(rows: seq<Rule>, id: string, x: Rule, y: Rule)
    requires AppendOnly(rows) && LastRow(rows, id, x) && LastRow(rows, id, y)
    ensures x == y
  {
    var i :| 0 <= i < |rows| && rows[i] == x;
    var j :| 0 <= j < |rows| && rows[j] == y;
    assert i < j || j < i || i == j;
  }

  lemma LatestIsLastRow(rows: seq<Rule>, id: string)
    requires AppendOnly(rows)
    ensures var latest := LatestOf(rows, id);
            && (latest.None? ==> forall q <- rows :: q.id != id)
            && (latest.Some? ==> LastRow(rows, id, latest.value))
            && forall last | LastRow(rows, id, last) :: latest == Some(last)
  {
    LatestOfIsLatest(rows, id);
    var latest := LatestOf(rows, id);
    forall last | LastRow(rows, id, last)
      ensures latest == Some(last)
    {
      LastRowUnique(rows, id, last, latest.value);
    }
  }

  lemma RevisionExactly(b: Book, id: string, p: Revision)
    requires AppendOnly(b.rows)
    ensures var r := UpdateRule(b, id, p);
            RevisionAnswer(b, id, p, r) && (r.Success? ==> r.value.version == b.version + 1)
  {
    hide AppendOnly, InForce, LatestEnabled, LatestOf;
    EnabledAgree(b);
    LatestIsLastRow(b.rows, id);
    var latest := LatestOf(b.rows, id);
    if latest.Some? { LastRowIsRow(b.rows, id, latest.value); }
    hide LastRow;
  }

  lemma LastRowIsRow(rows: seq<Rule>, id: string, r: Rule)
    requires LastRow(rows, id, r)
    ensures r in rows && r.id == id
  {
  }

  /** The tenant's rules after an edit: seeded first, replaced when it is accepted, and then on the log. */
  ghost predicate BookAnswer(t: Tables, u: Tables, tenant: string, r: Result<Book, Refusal>, e: Event) {
    match r
    case Failure(_) => u == t
    case Success(book) => u == t.(books := t.books[tenant := book], events := t.events + [e])
  }

  lemma SameBooks(books: map<string, Book>, tenant: string, seeded: Book, book: Book)
    ensures books[tenant := seeded][tenant := book] == books[tenant := book]
  {
  }

  /** A rule is added to the tenant's rules exactly when its code and id are free and the hundred are not used up. */
  lemma CreationTakesEffect(before: seq<Step>, tenant: string, id: string, p: Creation)
    ensures var t, u := Advance(Run(before)).db, Run(before + [AddRule(tenant, id, p)]).db;
            exists r :: CreationAnswer(RulesOf(t, tenant), id, p, r)
                        && BookAnswer(t, u, tenant, r, RuleCreated(tenant, RulesOf(t, tenant).version + 1))
  {
    var w := Advance(Run(before));
    var book := RulesOf(w.db, tenant);
    RunExtend(before, AddRule(tenant, id, p));
    CreationExactly(book, id, p);
    hide Run, WorldInv, Linked, SeedBook, CreateRule, CreationAnswer;
    var r := CreateRule(book, id, p);
    if r.Success? { SameBooks(w.db.books, tenant, book, r.value); }
    assert BookAnswer(w.db, Run(before + [AddRule(tenant, id, p)]).db, tenant, r,
                      RuleCreated(tenant, book.version + 1));
  }

  lemma RulesKept(steps: seq<Step>, tenant: string)
    ensures AppendOnly(RulesOf(Advance(Run(steps)).db, tenant).rows)
  {
    RunBooks(steps);
    hide Run, WorldInv, SeedBook, AppendOnly, Identity, LatestEnabled;
    RulesWellFormed(Advance(Run(steps)).db, tenant);
  }

  /** A revision is appended to the tenant's rules exactly when it follows the last one and fits it. */
  lemma RevisionTakesEffect(before: seq<Step>, tenant: string, id: string, p: Revision)
    ensures var t, u := Advance(Run(before)).db, Run(before + [ReviseRule(tenant, id, p)]).db;
            exists r :: RevisionAnswer(RulesOf(t, tenant), id, p, r)
                        && BookAnswer(t, u, tenant, r, RuleRevised(tenant, RulesOf(t, tenant).version + 1))
  {
    hide Run, WorldInv, SeedBook, AppendOnly, RevisionAnswer, UpdateRule;
    var w := Advance(Run(before));
    var book := RulesOf(w.db, tenant);
    RulesKept(before, tenant);
    RunExtend(before, ReviseRule(tenant, id, p));
    RevisionExactly(book, id, p);
    assert Linked(w.db);
    hide Linked;
    var r := UpdateRule(book, id, p);
    if r.Success? { SameBooks(w.db.books, tenant, book, r.value); }
    assert BookAnswer(w.db, Run(before + [ReviseRule(tenant, id, p)]).db, tenant, r,
                      RuleRevised(tenant, book.version + 1));
  }

  // ---- declarations on the log -----------------------------------------------------------------

  /** What is declared of a column when change `i` of a batch comes: the change before it, or what was there. */
  ghost predicate DeclaredBefore(declared: map<string, Category>, changes: seq<T.Change>, i: nat, was: Option<Category>)
    requires i < |changes|
  {
    && (forall k | 0 <= k < i && LastChange(changes[..i], k, changes[i].column) :: was == changes[k].category)
    && (Untouched(changes[..i], changes[i].column) ==> DeclaredAs(declared, changes[i].column, was))
  }

  lemma {:induction false} EventsOfBatch(asset: nat, declared: map<string, Category>, changes: seq<T.Change>, i: nat)
    requires i < |changes|
    ensures var events := T.ChangeEvents(asset, declared, changes);
            && |events| == |changes| && events[i].ClassificationChanged?
            && events[i] == ClassificationChanged(asset, changes[i].column, events[i].was, changes[i].category)
            && DeclaredAs(T.Declare(declared, changes[..i]), changes[i].column, events[i].was)
    decreases |changes|
  {
    var next := First(declared, changes[0]);
    DeclareFirst(declared, changes[0]);
    assert T.ChangeEvents(asset, declared, changes)[1..] == T.ChangeEvents(asset, next, changes[1..]);
    if i > 0 {
      EventsOfBatch(asset, next, changes[1..], i - 1);
      assert changes[..i][1..] == changes[1..][..i - 1];
    } else if |changes| > 1 {
      EventsOfBatch(asset, next, changes[1..], 0);
    }
  }

  lemma DeclareFirst(declared: map<string, Category>, c: T.Change)
    ensures T.Declare(declared, [c]) == First(declared, c)
  {
    assert [c][1..] == [];
  }

  lemma WasDeclared(declared: map<string, Category>, changes: seq<T.Change>, i: nat, was: Option<Category>)
    requires i < |changes| && DeclaredAs(T.Declare(declared, changes[..i]), changes[i].column, was)
    ensures DeclaredBefore(declared, changes, i, was)
  {
    forall k | 0 <= k < i && LastChange(changes[..i], k, changes[i].column)
      ensures was == changes[k].category
    {
      LastChangeWins(declared, changes[..i], k, changes[i].column);
    }
    if Untouched(changes[..i], changes[i].column) {
      UntouchedStays(declared, changes[..i], changes[i].column);
    }
  }

  /** The entry of one change: from what was declared just before it to what it says. */
  ghost predicate ChangeLogged(declared: map<string, Category>, a: nat, changes: seq<T.Change>, i: nat, e: Event)
    requires i < |changes|
  {
    && e.ClassificationChanged? && e == ClassificationChanged(a, changes[i].column, e.was, changes[i].category)
    && DeclaredBefore(declared, changes, i, e.was)
  }

  /** The entries of an accepted batch: one per change, in order. */
  ghost predicate BatchLogged(declared: map<string, Category>, a: nat, changes: seq<T.Change>, events: seq<Event>) {
    |events| == |changes| && forall i :: 0 <= i < |changes| ==> ChangeLogged(declared, a, changes, i, events[i])
  }

  lemma {:induction false} OneEventPerChange(asset: nat, declared: map<string, Category>, changes: seq<T.Change>)
    ensures |T.ChangeEvents(asset, declared, changes)| == |changes|
    decreases |changes|
  {
    if |changes| > 0 {
      OneEventPerChange(asset, T.Declare(declared, [changes[0]]), changes[1..]);
    }
  }

  lemma EventIsLogged(a: nat, declared: map<string, Category>, changes: seq<T.Change>, i: nat)
    requires i < |changes| == |T.ChangeEvents(a, declared, changes)|
    ensures ChangeLogged(declared, a, changes, i, T.ChangeEvents(a, declared, changes)[i])
  {
    hide T.ChangeEvents, T.Declare, DeclaredAs, DeclaredBefore;
    EventsOfBatch(a, declared, changes, i);
    WasDeclared(declared, changes, i, T.ChangeEvents(a, declared, changes)[i].was);
  }

  lemma BatchIsLogged(a: nat, declared: map<string, Category>, changes: seq<T.Change>)
    ensures BatchLogged(declared, a, changes, T.ChangeEvents(a, declared, changes))
  {
    hide T.ChangeEvents, ChangeLogged;
    OneEventPerChange(a, declared, changes);
    forall i | 0 <= i < |changes|
      ensures ChangeLogged(declared, a, changes, i, T.ChangeEvents(a, declared, changes)[i])
    {
      EventIsLogged(a, declared, changes, i);
    }
  }

  ghost predicate BatchAnswer(t: Tables, u: Tables, a: nat, s: nat, version: nat, changes: seq<T.Change>) {
    if Accepts(t, a, s, version, changes) then
      && |u.assets| == |t.assets|
      && t.events <= u.events && BatchLogged(t.assets[a].declared, a, changes, u.events[|t.events|..])
      && u.assets == t.assets[a := t.assets[a].(declared := u.assets[a].declared, revision := version + 1)]
      && u == t.(assets := u.assets, events := u.events)
    else u == t
  }

  lemma BatchExactly(t: Tables, a: nat, s: nat, version: nat, changes: seq<T.Change>)
    requires Linked(t)
    ensures BatchAnswer(t, T.Classify(t, a, s, version, changes).0, a, s, version, changes)
  {
    hide Linked, BatchLogged, T.Declare, T.ChangeEvents;
    if Accepts(t, a, s, version, changes) {
      BatchIsLogged(a, t.assets[a].declared, changes);
      var u := T.Classify(t, a, s, version, changes).0;
      assert u.events[|t.events|..] == T.ChangeEvents(a, t.assets[a].declared, changes);
    }
  }

  /**
   A batch moves what the asset declares, its revision and the log, and nothing else, or it changes nothing at all.
   */
  lemma BatchTakesEffect(before: seq<Step>, a: nat, s: nat, version: nat, changes: seq<T.Change>)
    ensures BatchAnswer(Advance(Run(before)).db, Run(before + [Classify(a, s, version, changes)]).db, a, s, version,
                        changes)
  {
    hide Run, WorldInv, BatchAnswer, T.Classify;
    RunExtend(before, Classify(a, s, version, changes));
    assert Linked(Advance(Run(before)).db);
    hide Linked;
    BatchExactly(Advance(Run(before)).db, a, s, version, changes);
  }

  // ---- protection policies ---------------------------------------------------------------------

  /** The roles of the product. */
  predicate Role(r: string) {
    || r == "WORKSPACE_ADMIN" || r == "DATA_OWNER" || r == "DATA_STEWARD" || r == "DATA_ENGINEER"
    || r == "BUSINESS_VIEWER" || r == "VIEWER_UNPRIVILEGED"
  }

  lemma RolesAre(r: string)
    ensures r in T.ROLES <==> Role(r)
  {
    assert T.ROLES[0] == "WORKSPACE_ADMIN" && T.ROLES[1] == "DATA_OWNER" && T.ROLES[2] == "DATA_STEWARD"
           && T.ROLES[3] == "DATA_ENGINEER" && T.ROLES[4] == "BUSINESS_VIEWER" && T.ROLES[5] == "VIEWER_UNPRIVILEGED";
  }

  /** Every role sees exactly the given categories fully masked; what else was set stays set. */
  ghost predicate MasksFor(p: Policies, q: Policies, categories: seq<Category>) {
    forall c: Category, r: string ::
      && (c in categories && Role(r) ==> (c, r) in q && q[(c, r)] == FullMask)
      && (!(c in categories && Role(r)) ==>
            if (c, r) in p && p[(c, r)] != FullMask then (c, r) in q && q[(c, r)] == p[(c, r)] else (c, r) !in q)
  }

  lemma RemaskMasks(p: Policies, categories: seq<Category>)
    ensures MasksFor(p, T.Remask(p, categories), categories)
  {
    var rows := set c <- categories, r <- T.ROLES :: (c, r);
    forall c: Category, r: string
      ensures (c, r) in rows <==> c in categories && Role(r)
    {
      RolesAre(r);
    }
    hide Role;
  }

  /** The categories somebody sees fully masked. */
  ghost predicate SeenMasked(p: Policies, categories: set<Category>) {
    forall c: Category :: c in categories <==> exists r: string :: (c, r) in p && p[(c, r)] == FullMask
  }

  lemma MaskedCategoriesAre(p: Policies)
    ensures SeenMasked(p, T.MaskedCategories(p))
  {
    forall c: Category
      ensures c in T.MaskedCategories(p) <==> exists r: string :: (c, r) in p && p[(c, r)] == FullMask
    {
      if c in T.MaskedCategories(p) {
        var k :| k in p && p[k].FullMask? && k.0 == c;
        assert (c, k.1) in p;
      }
      if r: string :| (c, r) in p && p[(c, r)] == FullMask {
        assert (c, r).0 in T.MaskedCategories(p);
      }
    }
  }

  /** A policy request is accepted at the asset's revision, and then every role sees what it says and the log tells. */
  lemma PolicyTakesEffect(before: seq<Step>, a: nat, version: nat, categories: seq<Category>)
    ensures var t, u := Advance(Run(before)).db, Run(before + [SetPolicy(a, version, categories)]).db;
            if a < |t.assets| && t.assets[a].revision == version then
              && |u.assets| == |t.assets| && MasksFor(t.assets[a].policies, u.assets[a].policies, categories)
              && u.assets == t.assets[a := t.assets[a].(policies := u.assets[a].policies, revision := version + 1)]
              && (exists was: set<Category> ::
                    && SeenMasked(t.assets[a].policies, was)
                    && u.events == t.events + [PolicyChanged(a, was, (set c <- categories), version + 1)])
              && u == t.(assets := u.assets, events := u.events)
            else u == t
  {
    var w := Advance(Run(before));
    RunExtend(before, SetPolicy(a, version, categories));
    hide Run, WorldInv, Linked, MasksFor, SeenMasked, T.MaskedCategories, T.Remask;
    if a < |w.db.assets| {
      RemaskMasks(w.db.assets[a].policies, categories);
      MaskedCategoriesAre(w.db.assets[a].policies);
    }
  }

  // ---- imports ---------------------------------------------------------------------------------

  /** Two hits that cannot both be recorded: in one place, of one detector, or of one rule revision in a scan. */
  predicate Clash(a: Hit, b: Hit, inScan: bool) {
    && a.column == b.column && a.path == b.path
    && ((a.code == b.code && a.detectorRevision == b.detectorRevision) || (inScan && a.rule.Some? && a.rule == b.rule))
  }

  /** The hits at `kept`, in order; a hit is left out exactly when it clashes with one kept before it. */
  ghost predicate KeepsFirst(found: seq<Hit>, hits: seq<Hit>, kept: seq<nat>, inScan: bool) {
    && |kept| == |hits| && (forall m :: 0 <= m < |kept| ==> kept[m] < |found| && hits[m] == found[kept[m]])
    && (forall m, n :: 0 <= m < n < |kept| ==> kept[m] < kept[n])
    && (forall i: nat :: i < |found| ==>
          (i in kept <==> forall j: nat :: j < i && j in kept ==> !Clash(found[j], found[i], inScan)))
  }

  lemma KeepsDropped(found: seq<Hit>, h: Hit, hits: seq<Hit>, kept: seq<nat>, inScan: bool, m: nat)
    requires KeepsFirst(found, hits, kept, inScan) && m < |hits| && Clash(hits[m], h, inScan)
    ensures KeepsFirst(found + [h], hits, kept, inScan)
  {
    hide Clash;
    var grown := found + [h];
    assert kept[m] in kept && grown[kept[m]] == hits[m];
    forall i: nat | i < |grown|
      ensures i in kept <==> forall j: nat :: j < i && j in kept ==> !Clash(grown[j], grown[i], inScan)
    {
      if i < |found| {
        assert forall j: nat :: j < i ==> grown[j] == found[j];
      }
    }
  }

  lemma KeepsAdded(found: seq<Hit>, h: Hit, hits: seq<Hit>, kept: seq<nat>, inScan: bool)
    requires KeepsFirst(found, hits, kept, inScan) && forall e <- hits :: !Clash(e, h, inScan)
    ensures KeepsFirst(found + [h], hits + [h], kept + [|found|], inScan)
  {
    hide Clash;
    var n := |found|;
    var grown, more := found + [h], kept + [n];
    forall i: nat | i < |grown|
      ensures i in more <==> forall j: nat :: j < i && j in more ==> !Clash(grown[j], grown[i], inScan)
    {
      if i < n {
        assert i in more <==> i in kept;
        assert forall j: nat :: j < i ==> grown[j] == found[j] && (j in more <==> j in kept);
      } else {
        forall j: nat | j < i && j in more
          ensures !Clash(grown[j], grown[i], inScan)
        {
          var m :| 0 <= m < |kept| && kept[m] == j;
          assert hits[m] in hits;
        }
      }
    }
  }

  lemma CollidesIsClash(a: Hit, b: Hit, inScan: bool)
    ensures T.Collide(a, b, inScan) <==> Clash(a, b, inScan)
  {
  }

  lemma KeepsOneMore(found: seq<Hit>, h: Hit, hits: seq<Hit>, kept: seq<nat>, inScan: bool) returns (more: seq<nat>)
    requires KeepsFirst(found, hits, kept, inScan)
    ensures var dropped := exists e <- hits :: T.Collide(e, h, inScan);
            KeepsFirst(found + [h], if dropped then hits else hits + [h], more, inScan)
  {
    hide KeepsFirst, T.Collide, Clash;
    if e :| e in hits && T.Collide(e, h, inScan) {
      var m :| 0 <= m < |hits| && hits[m] == e;
      CollidesIsClash(e, h, inScan);
      KeepsDropped(found, h, hits, kept, inScan, m);
      more := kept;
    } else {
      forall e | e in hits
        ensures !Clash(e, h, inScan)
      {
        CollidesIsClash(e, h, inScan);
      }
      KeepsAdded(found, h, hits, kept, inScan);
      more := kept + [|found|];
    }
  }

  lemma KeepsNone(found: seq<Hit>, inScan: bool)
    requires |found| == 0
    ensures KeepsFirst(found, [], [], inScan)
  {
  }

  lemma {:induction false} FirstOfEachKeeps(found: seq<Hit>, inScan: bool) returns (kept: seq<nat>)
    ensures KeepsFirst(found, T.FirstOfEach(found, inScan), kept, inScan)
  {
    hide KeepsFirst, T.Collide;
    if |found| == 0 {
      kept := [];
      KeepsNone(found, inScan);
    } else {
      var n := |found| - 1;
      kept := FirstOfEachKeeps(found[..n], inScan);
      kept := KeepsOneMore(found[..n], found[n], T.FirstOfEach(found[..n], inScan), kept, inScan);
      assert found == found[..n] + [found[n]];
    }
  }

  /**
   The rows an import adds: its snapshot, its own scan when it brings a pin, and its findings, nobody's decision yet.
   */
  ghost predicate Recorded(t: Tables, u: Tables, a: nat, columns: seq<string>, importScan: ImportScan,
                           pin: Option<Pinned>, found: seq<Hit>) {
    var n := |t.snapshots|;
    var scan := if pin.Some? then Some(|t.jobs|) else None;
    && u.snapshots == t.snapshots + [Snapshot(a, columns, importScan)]
    && u.jobs == (match pin
                  case None => t.jobs
                  case Some(p) => t.jobs + [Job(n, Apply, Complete, p, t.clock, None, 0, 0, None)])
    && t.findings <= u.findings
    && (exists hits, kept :: KeepsFirst(found, hits, kept, pin.Some?) && |u.findings| == |t.findings| + |hits|
          && forall m :: 0 <= m < |hits| ==> u.findings[|t.findings| + m] == Finding(n, scan, hits[m], Detected, None))
    && u == t.(assets := u.assets, snapshots := u.snapshots, jobs := u.jobs, findings := u.findings)
  }

  lemma FindingsRecorded(t: Tables, n: nat, scan: Option<nat>, found: seq<Hit>, inScan: bool)
    ensures var u := T.AddFindings(t, n, scan, T.FirstOfEach(found, inScan));
            && t.findings <= u.findings && u == t.(findings := u.findings)
            && exists hits, kept :: KeepsFirst(found, hits, kept, inScan) && |u.findings| == |t.findings| + |hits|
                 && forall m :: 0 <= m < |hits| ==>
                      u.findings[|t.findings| + m] == Finding(n, scan, hits[m], Detected, None)
  {
    var kept := FirstOfEachKeeps(found, inScan);
    hide KeepsFirst, T.FirstOfEach;
    var hits := T.FirstOfEach(found, inScan);
    assert KeepsFirst(found, hits, kept, inScan);
  }

  /** The asset an import goes to: its target if that is the tenant's, else a new one, else none. */
  ghost predicate ImportTarget(t: Tables, u: Tables, tenant: string, target: Option<nat>, a: nat) {
    match target
    case Some(b) => a == b && b < |t.assets| && t.assets[b].tenant == tenant && u.assets == t.assets
    case None => a == |t.assets| && u.assets == t.assets + [Asset(tenant, 0, map[], map[])]
  }

  lemma RegisterExactly(t: Tables, tenant: string, target: Option<nat>, columns: seq<string>, importScan: ImportScan,
                        pin: Option<Pinned>, found: seq<Hit>)
    requires Linked(t)
    ensures var (u, n) := T.Register(t, tenant, target, columns, importScan, pin, found);
            if target.Some? && !(target.value < |t.assets| && t.assets[target.value].tenant == tenant)
            then u == t && n == None
            else n == Some(|t.snapshots|)
                 && exists a ::
                      ImportTarget(t, u, tenant, target, a) && Recorded(t, u, a, columns, importScan, pin, found)
  {
    hide Linked, T.FirstOfEach, KeepsFirst, T.AddFindings;
    var added := T.AddSnapshot(t, tenant, target, columns, importScan);
    if added.Some? {
      var n := |t.snapshots|;
      var (scanned, scan) := T.AddImportJob(added.value, n, pin);
      FindingsRecorded(scanned, n, scan, found, scan.Some?);
      var a := if target.Some? then target.value else |t.assets|;
      var u := T.AddFindings(scanned, n, scan, T.FirstOfEach(found, scan.Some?));
      assert ImportTarget(t, u, tenant, target, a);
      assert Recorded(t, u, a, columns, importScan, pin, found);
    }
  }

  /**
   An import is recorded under the tenant's own asset or a new one, with its scan when it brings the pin it was scanned
   under, and with its findings, of which the first of each clash is kept; an import for another tenant's asset is not.
   */
  lemma ImportTakesEffect(before: seq<Step>, tenant: string, target: Option<nat>, columns: seq<string>,
                          importScan: ImportScan, pin: Option<nat>, found: seq<Hit>)
    ensures var w, v := Advance(Run(before)), Run(before + [Register(tenant, target, columns, importScan, pin, found)]);
            if (pin.Some? && !(pin.value < |w.pins| && w.pins[pin.value].tenant == tenant))
               || (target.Some? && !(target.value < |w.db.assets| && w.db.assets[target.value].tenant == tenant)) then
                    v == w
            else
              var pinned := if pin.Some? then Some(w.pins[pin.value].pinned) else None;
              && v == w.(db := v.db)
              && exists a :: ImportTarget(w.db, v.db, tenant, target, a)
                             && Recorded(w.db, v.db, a, columns, importScan, pinned, found)
  {
    var w := Advance(Run(before));
    RunExtend(before, Register(tenant, target, columns, importScan, pin, found));
    hide Run, WorldInv;
    assert Linked(w.db);
    hide Linked, T.Register, Recorded, ImportTarget;
    if pin.None? {
      RegisterExactly(w.db, tenant, target, columns, importScan, None, found);
    } else if pin.value < |w.pins| {
      RegisterExactly(w.db, tenant, target, columns, importScan, Some(w.pins[pin.value].pinned), found);
    }
  }

  /** The pin of an import is every rule in force at that moment. */
  lemma ImportPinTakesEffect(before: seq<Step>, tenant: string)
    ensures var w, v := Advance(Run(before)), Run(before + [PinForImport(tenant)]);
            var book := RulesOf(w.db, tenant);
            && |v.pins| == |w.pins| + 1 && v.pins[..|w.pins|] == w.pins
            && v.pins[|w.pins|].tenant == tenant && v.pins[|w.pins|].pinned.configVersion == book.version
            && PinsAll(v.pins[|w.pins|].pinned.rules, book.rows)
            && v == w.(db := w.db.(books := w.db.books[tenant := book]), pins := v.pins)
  {
    var w := Advance(Run(before));
    RunBooks(before);
    RunExtend(before, PinForImport(tenant));
    hide Run, WorldInv, Linked, SeedBook, Load, WellFormed, PinsAll;
    RulesWellFormed(w.db, tenant);
    LoadPinsAll(RulesOf(w.db, tenant));
  }
}
