/** The privacy tables as the services change them: row by row, inside one transaction at a time. */
module PrivacyDatabase {
  import opened DetectorRules
  import opened PrivacyTables
  import T = PrivacyTransactions

  class Database {
    var clock: nat
    var books: map<string, Book>
    var assets: seq<Asset>
    var snapshots: seq<Snapshot>
    var jobs: seq<Job>
    var findings: seq<Finding>
    var events: seq<Event>

    ghost function View(): Tables
      reads this
    {
      Tables(clock, books, assets, snapshots, jobs, findings, events)
    }

    ghost predicate Valid()
      reads this
    {
      Linked(View())
    }

    constructor ()
      ensures View() == EMPTY && Valid()
    {
      clock, books, assets, snapshots, jobs, findings, events := 0, map[], [], [], [], [], [];
    }

    /** UPDATE asset_protection_revisions SET version = version + 1 RETURNING version. */
    method BumpRevision(asset: nat) returns (version: nat)
      requires asset < |assets|
      modifies `assets
      ensures View() == T.Bump(old(View()), asset) && version == assets[asset].revision
    {
      version := assets[asset].revision + 1;
      assets := assets[asset := assets[asset].(revision := version)];
    }
  }
}

/** Tenant rules: append-only revisions under the tenant's config version. */
module PrivacyRuleService {
  import opened Wrappers
  import opened Ordering
  import opened DetectorRules
  import opened PrivacyTables
  import opened PrivacyDatabase
  import T = PrivacyTransactions

  /** Seeds the builtin rules one by one, then the config row, unless the tenant has one. */
  method EnsureInitialized(db: Database, tenant: string)
    modifies db`books
    ensures db.View() == T.EnsureInitialized(old(db.View()), tenant)
  {
    if tenant in db.books {
      return;
    }
    var rows := [];
    for i := 0 to |BUILTINS|
      invariant |rows| == i && rows == SeedBook().rows[..i]
    {
      rows := rows + [BuiltinRule(BUILTINS[i].0, BUILTINS[i].1)];
    }
    assert SeedBook().rows[..|BUILTINS|] == SeedBook().rows;
    db.books := db.books[tenant := Book(1, rows)];
  }

  method AddRule(db: Database, tenant: string, id: string, p: Creation) returns (refused: Option<Refusal>)
    modifies db`books, db`events
    ensures db.View() == T.AddRule(old(db.View()), tenant, id, p)
    ensures var book := T.EnsureInitialized(old(db.View()), tenant).books[tenant];
            refused.None? <==> CreateRule(book, id, p).Success?
    ensures var book := T.EnsureInitialized(old(db.View()), tenant).books[tenant];
            refused.Some? ==> CreateRule(book, id, p) == Failure(refused.value)
  {
    var saved := db.books;
    EnsureInitialized(db, tenant);
    var book := db.books[tenant];
    if exists r <- book.rows :: r.code == p.code {
      db.books := saved;
      return Some(CodeConflict);
    }
    if p.body.enabled && |LatestEnabled(book.rows)| >= MAX_ENABLED_RULES {
      db.books := saved;
      return Some(LimitExceeded);
    }
    if exists r <- book.rows :: r.id == id {
      db.books := saved;
      return Some(IdTaken);
    }
    var row := Rule(id, 1, p.code, if p.onColumnNames then ColumnName else ValuePattern, Some(p.pattern), p.body);
    book := book.(rows := book.rows + [row]);
    book := book.(version := book.version + 1);
    db.books := db.books[tenant := book];
    db.events := db.events + [RuleCreated(tenant, book.version)];
    refused := None;
  }

  method ReviseRule(db: Database, tenant: string, id: string, p: Revision) returns (refused: Option<Refusal>)
    modifies db`books, db`events
    ensures db.View() == T.ReviseRule(old(db.View()), tenant, id, p)
    ensures var book := T.EnsureInitialized(old(db.View()), tenant).books[tenant];
            refused.None? <==> UpdateRule(book, id, p).Success?
    ensures var book := T.EnsureInitialized(old(db.View()), tenant).books[tenant];
            refused.Some? ==> UpdateRule(book, id, p) == Failure(refused.value)
  {
    var saved := db.books;
    EnsureInitialized(db, tenant);
    var book := db.books[tenant];
    var current := LatestOf(book.rows, id);
    if current.None? {
      db.books := saved;
      return Some(NotFound);
    }
    var previous := current.value;
    if previous.revision != p.expectedRevision {
      db.books := saved;
      return Some(RevisionConflict);
    }
    if previous.kind.Builtin? != p.pattern.None? {
      db.books := saved;
      return Some(InvalidRule);
    }
    if p.body.enabled && !previous.body.enabled && |LatestEnabled(book.rows)| >= MAX_ENABLED_RULES {
      db.books := saved;
      return Some(LimitExceeded);
    }
    var row := Rule(id, previous.revision + 1, previous.code, previous.kind, p.pattern, p.body);
    book := book.(rows := book.rows + [row]);
    book := book.(version := book.version + 1);
    db.books := db.books[tenant := book];
    db.events := db.events + [RuleRevised(tenant, book.version)];
    refused := None;
  }

  /** What every rule transaction keeps of a tenant's book. */
  ghost predicate BookFits(books: map<string, Book>, tenant: string) {
    tenant in books ==> WellFormed(books[tenant])
  }

  /** Exactly the latest enabled rules, at most 100 of them, each once and in rule-id order, with the book's version. */
  ghost predicate PinsEnabled(pinned: Pinned, book: Book) {
    && WellFormed(book) && pinned.configVersion == book.version
    && multiset(pinned.rules) == multiset(LatestEnabled(book.rows)) && |pinned.rules| <= MAX_ENABLED_RULES
    && forall i, j :: 0 <= i < j < |pinned.rules| ==>
         Below(pinned.rules[i].id, pinned.rules[j].id) && pinned.rules[i].id != pinned.rules[j].id
  }

  lemma LoadPinsEnabled(t: Tables, tenant: string)
    requires BookFits(t.books, tenant)
    ensures var book := T.EnsureInitialized(t, tenant).books[tenant]; PinsEnabled(Load(book), book)
  {
    SeedWellFormed();
    hide WellFormed, SeedBook, Load;
    LoadIsLatestEnabled(T.EnsureInitialized(t, tenant).books[tenant]);
  }

  /** Seeds the tenant if it has no rules, leaves every other book alone, and answers with the enabled rules. */
  method LoadPinned(db: Database, tenant: string) returns (pinned: Pinned)
    modifies db`books
    ensures (db.View(), pinned) == T.LoadPinned(old(db.View()), tenant)
    ensures tenant in db.books
    ensures BookFits(old(db.books), tenant) ==> PinsEnabled(pinned, db.books[tenant])
    ensures forall other <- old(db.books) :: other in db.books && db.books[other] == old(db.books)[other]
  {
    hide BookFits, PinsEnabled, Load, SeedBook;
    if BookFits(db.books, tenant) { LoadPinsEnabled(db.View(), tenant); }
    EnsureInitialized(db, tenant);
    pinned := Load(db.books[tenant]);
  }
}

/** Scan submission. */
module PrivacyScanService {
  import opened Wrappers
  import opened PrivacyTables
  import opened PrivacyDatabase
  import Rules = PrivacyRuleService
  import T = PrivacyTransactions

  method CreateScan(db: Database, snapshot: nat, sel: T.Selection) returns (r: Result<nat, T.ScanRefusal>)
    requires db.Valid()
    modifies db`books, db`jobs, db`assets
    ensures (db.View(), r) == T.CreateScan(old(db.View()), snapshot, sel)
  {
    if snapshot >= |db.snapshots| {
      return Failure(T.ResourceNotFound);
    }
    var asset := db.snapshots[snapshot].asset;
    var existing := T.ActiveJob(db.jobs, snapshot, T.PurposeOf(sel));
    if existing.Some? {
      if sel.TryRule? && !exists r <- db.jobs[existing.value].pinned.rules ::
           r.id == sel.ruleId && r.revision == sel.revision {
        return Failure(T.ScanInProgress);
      }
      return Success(existing.value);
    }
    var saved := db.books;
    var tenant := db.assets[asset].tenant;
    Rules.EnsureInitialized(db, tenant);
    var pin := T.PinFor(db.books[tenant], sel);
    if pin.Failure? {
      db.books := saved;
      return Failure(pin.error);
    }
    r := Success(|db.jobs|);
    db.jobs := db.jobs + [Job(snapshot, T.PurposeOf(sel), Queued, pin.value, db.clock, None, 0, 0, None)];
    if sel.ApplyAll? {
      var _ := db.BumpRevision(asset);
    }
  }
}
