/** Reviews, policies and masked exports. */
module PrivacyService {
  import opened Wrappers
  import opened DetectorRules
  import opened PrivacyTables
  import opened PrivacyDatabase
  import T = PrivacyTransactions

  method UpdateFindingStatus(db: Database, finding: nat, expected: Status, confirm: bool, reviewer: string,
                             reason: string)
      returns (refused: Option<T.ReviewRefusal>)
    requires db.Valid()
    modifies db`findings, db`assets, db`events
    ensures (db.View(), refused) == T.UpdateStatus(old(db.View()), finding, expected, confirm, reviewer, reason)
  {
    if finding >= |db.findings| {
      return Some(T.FindingNotFound);
    }
    var row := db.findings[finding];
    var asset := db.snapshots[row.snapshot].asset;
    if row.status != expected {
      return Some(T.StatusConflict);
    }
    var next := if confirm then Confirmed else Dismissed;
    var review := Review(reviewer, reason, db.clock);
    db.findings := db.findings[finding := row.(status := next, review := Some(review))];
    var _ := db.BumpRevision(asset);
    db.events := db.events + [StatusChanged(finding, row.status, next, review)];
    refused := None;
  }

  /** One upsert per role. */
  function WithRoles(p: Policies, c: Category, roles: seq<string>): Policies {
    if |roles| == 0 then p
    else WithRoles(p, c, roles[..|roles| - 1])[(c, roles[|roles| - 1]) := FullMask]
  }

  lemma {:induction false} WithRolesAt(p: Policies, c: Category, roles: seq<string>)
    ensures var q := WithRoles(p, c, roles);
            && (forall k :: k in q <==> k in p || (k.0 == c && k.1 in roles))
            && (forall k <- q :: q[k] == if k.0 == c && k.1 in roles then FullMask else p[k])
  {
    if |roles| > 0 {
      var n := |roles| - 1;
      WithRolesAt(p, c, roles[..n]);
      assert roles == roles[..n] + [roles[n]];
    }
  }

  lemma RemaskNone(p: Policies)
    ensures T.Remask(p, []) == map k <- p | !p[k].FullMask? :: p[k]
  {
  }

  lemma RemaskExtend(p: Policies, done: seq<Category>, c: Category)
    ensures WithRoles(T.Remask(p, done), c, T.ROLES) == T.Remask(p, done + [c])
  {
    WithRolesAt(T.Remask(p, done), c, T.ROLES);
    hide WithRoles;
    var a, b := WithRoles(T.Remask(p, done), c, T.ROLES), T.Remask(p, done + [c]);
    forall k: (Category, string)
      ensures (k in a <==> k in b) && (k in a ==> a[k] == b[k])
    {
    }
  }

  /** Reading the policy back gives the categories asked for, whatever other strategies the asset has. */
  lemma RemaskReadsBack(p: Policies, categories: seq<Category>)
    ensures T.MaskedCategories(T.Remask(p, categories)) == set c <- categories
    ensures forall k <- p :: !p[k].FullMask? && k.1 !in T.ROLES ==>
              k in T.Remask(p, categories) && T.Remask(p, categories)[k] == p[k]
  {
    var q := T.Remask(p, categories);
    forall c | c in categories
      ensures c in T.MaskedCategories(q)
    {
      assert T.ROLES[0] in T.ROLES;
      assert (c, T.ROLES[0]) in q && q[(c, T.ROLES[0])].FullMask?;
    }
  }

  /** Deletes the FULL_MASK rows and upserts one for every category and active role. */
  method ReplaceFullMasks(p: Policies, categories: seq<Category>) returns (policies: Policies)
    ensures policies == T.Remask(p, categories)
  {
    policies := map k <- p | !p[k].FullMask? :: p[k];
    RemaskNone(p);
    hide T.Remask;
    for i := 0 to |categories|
      invariant policies == T.Remask(p, categories[..i])
    {
      ghost var start := policies;
      for j := 0 to |T.ROLES|
        invariant policies == WithRoles(start, categories[i], T.ROLES[..j])
      {
        assert T.ROLES[..j + 1][..j] == T.ROLES[..j];
        policies := policies[(categories[i], T.ROLES[j]) := FullMask];
      }
      assert T.ROLES[..|T.ROLES|] == T.ROLES;
      RemaskExtend(p, categories[..i], categories[i]);
      assert categories[..i + 1] == categories[..i] + [categories[i]];
    }
    assert categories[..|categories|] == categories;
  }

  /** Replaces the full masks of the asset under its expected version and answers with the categories now masked. */
  method UpdateAssetProtectionPolicy(db: Database, asset: nat, expectedVersion: nat, categories: seq<Category>)
      returns (updated: bool, masked: set<Category>)
    requires db.Valid()
    modifies db`assets, db`events
    ensures (db.View(), updated) == T.SetPolicy(old(db.View()), asset, expectedVersion, categories)
    ensures updated ==>
              masked == (set c <- categories) && asset < |db.assets|
                && masked == T.MaskedCategories(db.assets[asset].policies)
  {
    masked := {};
    if asset >= |db.assets| || db.assets[asset].revision != expectedVersion {
      return false, masked;
    }
    var p := db.assets[asset].policies;
    var before := T.MaskedCategories(p);
    var policies := ReplaceFullMasks(p, categories);
    hide T.Remask, T.MaskedCategories;
    db.assets := db.assets[asset := db.assets[asset].(policies := policies)];
    var version := db.BumpRevision(asset);
    db.events := db.events + [PolicyChanged(asset, before, (set c <- categories), version)];
    RemaskReadsBack(p, categories);
    updated, masked := true, T.MaskedCategories(db.assets[asset].policies);
  }
}

/** Column declarations of an asset. */
module ColumnClassificationService {
  import opened Wrappers
  import opened DetectorRules
  import opened PrivacyTables
  import opened PrivacyDatabase
  import T = PrivacyTransactions

  lemma DeclareFirst(declared: map<string, Category>, changes: seq<T.Change>)
    requires |changes| > 0
    ensures T.Declare(declared, changes) == T.Declare(T.Declare(declared, [changes[0]]), changes[1..])
  {
    assert [changes[0]][1..] == [];
  }

  lemma {:induction false} DeclareSplit(declared: map<string, Category>, done: seq<T.Change>, c: T.Change)
    ensures T.Declare(declared, done + [c]) == T.Declare(T.Declare(declared, done), [c])
    decreases |done|
  {
    if |done| > 0 {
      assert (done + [c])[1..] == done[1..] + [c] && [done[0]][1..] == [];
      DeclareSplit(T.Declare(declared, [done[0]]), done[1..], c);
      DeclareFirst(declared, done + [c]);
      DeclareFirst(declared, done);
    } else {
      assert done + [c] == [c];
    }
  }

  lemma {:induction false} EventsSplit(asset: nat, declared: map<string, Category>, done: seq<T.Change>, c: T.Change)
    ensures T.ChangeEvents(asset, declared, done + [c]) ==
              T.ChangeEvents(asset, declared, done) + T.ChangeEvents(asset, T.Declare(declared, done), [c])
    decreases |done|
  {
    if |done| > 0 {
      assert (done + [c])[1..] == done[1..] + [c];
      EventsSplit(asset, T.Declare(declared, [done[0]]), done[1..], c);
      DeclareFirst(declared, done);
    } else {
      assert done + [c] == [c];
    }
  }

  /** Applies the changes in order, one audit event each, and bumps the revision once. */
  method UpdateClassifications(db: Database, asset: nat, snapshot: nat, expectedVersion: nat, changes: seq<T.Change>)
      returns (refused: Option<T.ClassifyRefusal>)
    requires db.Valid()
    modifies db`assets, db`events
    ensures (db.View(), refused) == T.Classify(old(db.View()), asset, snapshot, expectedVersion, changes)
  {
    if asset >= |db.assets| || snapshot >= |db.snapshots| || db.snapshots[snapshot].asset != asset {
      return Some(T.NoSuchSnapshot);
    }
    if exists c <- changes :: c.column !in db.snapshots[snapshot].columns {
      return Some(T.UnknownColumn);
    }
    if db.assets[asset].revision != expectedVersion {
      return Some(T.VersionConflict);
    }
    ghost var a, log := db.assets[asset], db.events;
    for i := 0 to |changes|
      invariant db.assets == old(db.assets)[asset := a.(declared := T.Declare(a.declared, changes[..i]))]
      invariant db.events == log + T.ChangeEvents(asset, a.declared, changes[..i])
    {
      var c := changes[i];
      assert changes[..i + 1] == changes[..i] + [c];
      DeclareSplit(a.declared, changes[..i], c);
      EventsSplit(asset, a.declared, changes[..i], c);
      var declared := db.assets[asset].declared;
      var previous := if c.column in declared then Some(declared[c.column]) else None;
      if c.category.None? {
        declared := declared - {c.column};
      } else {
        declared := declared[c.column := c.category.value];
      }
      db.assets := db.assets[asset := db.assets[asset].(declared := declared)];
      db.events := db.events + [ClassificationChanged(asset, c.column, previous, c.category)];
    }
    assert changes[..|changes|] == changes;
    var _ := db.BumpRevision(asset);
    refused := None;
  }
}

/** Which columns of a snapshot must be masked on output. */
module PrivacyPolicy {
  import opened Wrappers
  import opened DetectorRules
  import opened PrivacyTables
  import opened PrivacyDatabase

  datatype ColumnProtection = ColumnProtection(name: string, declared: Option<Category>, detected: set<Category>,
                                               effective: set<Category>, protected: bool, conflict: bool)

  ghost function CategoriesAmong(t: Tables, snapshot: nat, column: string, findings: seq<Finding>): set<Category> {
    set f <- findings | Flags(t, f, snapshot, column) :: f.hit.category
  }

  /** Categories of the findings that flag a column. */
  ghost function DetectedCategories(t: Tables, snapshot: nat, column: string): set<Category> {
    CategoriesAmong(t, snapshot, column, t.findings)
  }

  lemma CategoriesExtend(t: Tables, snapshot: nat, column: string, findings: seq<Finding>, f: Finding)
    ensures CategoriesAmong(t, snapshot, column, findings + [f]) ==
              CategoriesAmong(t, snapshot, column, findings)
                + (if Flags(t, f, snapshot, column) then {f.hit.category} else {})
  {
    hide Flags;
  }

  /** One row of the resolver's answer. */
  ghost function Resolved(t: Tables, snapshot: nat, column: string): ColumnProtection
    requires Linked(t) && snapshot < |t.snapshots|
  {
    var declarations := t.assets[AssetOf(t, snapshot)].declared;
    var declared := if column in declarations then Some(declarations[column]) else None;
    var detected := DetectedCategories(t, snapshot, column);
    var effective := detected + (if declared.Some? && Sensitive(declared.value) then {declared.value} else {});
    ColumnProtection(column, declared, detected, effective, effective != {} || !Verified(t, snapshot),
                     declared == Some(StandardData) && detected != {})
  }

  /** A column has an effective category exactly when it is detected or declared sensitive. */
  lemma ResolvedProtects(t: Tables, snapshot: nat, column: string)
    requires Linked(t) && snapshot < |t.snapshots| && column in t.snapshots[snapshot].columns
    ensures Resolved(t, snapshot, column).protected <==> column in Protected(t, snapshot)
  {
    hide Verified, Newest, Counts;
    var r := Resolved(t, snapshot, column);
    if DetectedColumn(t, snapshot, column) {
      var f :| f in t.findings && Flags(t, f, snapshot, column);
      assert f.hit.category in r.detected;
    }
  }

  /** setdefault(column, set()).add(category). */
  function Noted(detected: map<string, set<Category>>, column: string, category: Category): map<string, set<Category>> {
    detected[column := (if column in detected then detected[column] else {}) + {category}]
  }

  function At(detected: map<string, set<Category>>, column: string): set<Category> {
    if column in detected then detected[column] else {}
  }

  /** Groups the categories of the findings that count by column. */
  method CollectDetected(db: Database, snapshot: nat) returns (detected: map<string, set<Category>>)
    ensures forall c :: At(detected, c) == DetectedCategories(db.View(), snapshot, c)
  {
    var latest := Newest(db.jobs, snapshot, true);
    ghost var t := db.View();
    detected := map[];
    for i := 0 to |db.findings|
      invariant forall c :: At(detected, c) == CategoriesAmong(t, snapshot, c, db.findings[..i])
    {
      var f := db.findings[i];
      assert db.findings[..i + 1] == db.findings[..i] + [f];
      if f.snapshot == snapshot && !f.status.Dismissed? && (f.status.Confirmed? || f.scan == latest) {
        assert Flags(t, f, snapshot, f.hit.column);
        detected := Noted(detected, f.hit.column, f.hit.category);
      }
      forall c
        ensures At(detected, c) == CategoriesAmong(t, snapshot, c, db.findings[..i + 1])
      {
        CategoriesExtend(t, snapshot, c, db.findings[..i], f);
      }
    }
    assert db.findings[..|db.findings|] == db.findings;
  }

  /** What the resolver answers about a snapshot. */
  datatype SnapshotProtection = SnapshotProtection(asset: nat, policyVersion: nat, scan: (Option<JobState>, bool),
                                                   protected: set<string>, columns: seq<ColumnProtection>)

  /** The shared resolver; None for a snapshot that does not exist. */
  method ResolveSnapshotProtection(db: Database, snapshot: nat) returns (r: Option<SnapshotProtection>)
    requires db.Valid()
    ensures r.None? <==> snapshot >= |db.snapshots|
    ensures r.Some? ==>
              var t := db.View();
              && r.value.asset == AssetOf(t, snapshot) && r.value.policyVersion == PolicyVersion(t, snapshot)
              && r.value.scan == ScanState(t, snapshot) && r.value.protected == Protected(t, snapshot)
              && |r.value.columns| == |t.snapshots[snapshot].columns|
              && forall i :: 0 <= i < |r.value.columns| ==>
                   r.value.columns[i] == Resolved(t, snapshot, t.snapshots[snapshot].columns[i])
  {
    if snapshot >= |db.snapshots| {
      return None;
    }
    var asset := db.snapshots[snapshot].asset;
    var declarations := db.assets[asset].declared;
    var detected := CollectDetected(db, snapshot);
    var scan := ScanStateNow(db, snapshot);
    var columns, protected := ResolveColumns(db, snapshot, declarations, detected, scan.0 == Some(Complete) && !scan.1);
    r := Some(SnapshotProtection(asset, db.assets[asset].revision, scan, protected, columns));
  }

  /** The loop over the columns of the schema. */
  method ResolveColumns(db: Database, snapshot: nat, declarations: map<string, Category>,
                        detected: map<string, set<Category>>,
                        verified: bool) returns (columns: seq<ColumnProtection>, protected: set<string>)
    requires db.Valid() && snapshot < |db.snapshots|
    requires declarations == db.assets[AssetOf(db.View(), snapshot)].declared
             && verified == Verified(db.View(), snapshot)
    requires forall c :: At(detected, c) == DetectedCategories(db.View(), snapshot, c)
    ensures protected == Protected(db.View(), snapshot) && |columns| == |db.snapshots[snapshot].columns|
    ensures forall i :: 0 <= i < |columns| ==>
              columns[i] == Resolved(db.View(), snapshot, db.snapshots[snapshot].columns[i])
  {
    ghost var t := db.View();
    var names := db.snapshots[snapshot].columns;
    columns, protected := [], {};
    hide Verified, Flags, DetectedCategories, Newest;
    for i := 0 to |names|
      invariant |columns| == i
      invariant forall k :: 0 <= k < i ==> columns[k] == Resolved(t, snapshot, names[k])
      invariant protected == set k | 0 <= k < i && columns[k].protected :: names[k]
    {
      var name := names[i];
      var declared := if name in declarations then Some(declarations[name]) else None;
      var found := At(detected, name);
      var effective := found + (if declared.Some? && Sensitive(declared.value) then {declared.value} else {});
      var c := ColumnProtection(name, declared, found, effective, effective != {} || !verified,
                                declared == Some(StandardData) && found != {});
      columns := columns + [c];
      if c.protected {
        protected := protected + {name};
      }
    }
    ColumnsAreProtected(t, snapshot, columns);
  }

  lemma ColumnsAreProtected(t: Tables, snapshot: nat, columns: seq<ColumnProtection>)
    requires Linked(t) && snapshot < |t.snapshots| && |columns| == |t.snapshots[snapshot].columns|
    requires forall i :: 0 <= i < |columns| ==> columns[i] == Resolved(t, snapshot, t.snapshots[snapshot].columns[i])
    ensures Protected(t, snapshot) ==
              set k | 0 <= k < |columns| && columns[k].protected :: t.snapshots[snapshot].columns[k]
  {
    var names := t.snapshots[snapshot].columns;
    forall k | 0 <= k < |columns|
      ensures columns[k].protected <==> names[k] in Protected(t, snapshot)
    {
      ResolvedProtects(t, snapshot, names[k]);
    }
    hide Resolved, Linked;
    forall c | c in Protected(t, snapshot)
      ensures exists k :: 0 <= k < |columns| && columns[k].protected && names[k] == c
    {
      assert c in names by { hide DetectedColumn, DeclaredSensitive, Verified; }
    }
  }

  /** The latest APPLY job wins; otherwise the import-time scan of the manifest. */
  method ScanStateNow(db: Database, snapshot: nat) returns (r: (Option<JobState>, bool))
    requires db.Valid() && snapshot < |db.snapshots|
    ensures r == ScanState(db.View(), snapshot)
  {
    var tenant := db.assets[db.snapshots[snapshot].asset].tenant;
    var newest := Newest(db.jobs, snapshot, false);
    if newest.Some? {
      var job := db.jobs[newest.value];
      var current := if tenant in db.books then db.books[tenant].version else 0;
      return (Some(job.state), job.pinned.configVersion != current && job.state.Complete?);
    }
    match db.snapshots[snapshot].importScan
    case Unavailable => r := (None, false);
    case Recorded(None) => r := (Some(Complete), false);
    case Recorded(Some(pinned)) => r := (Some(Complete), tenant in db.books && db.books[tenant].version != pinned);
  }
}
