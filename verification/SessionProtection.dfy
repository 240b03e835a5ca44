/** Which columns an import session masks before it is registered, and which of them registering it unmasks. */
module SessionProtection {
  import opened Wrappers
  import opened DetectorRules
  import opened PrivacyTables
  import opened PrivacyDatabase
  import PrivacyPolicy
  import T = PrivacyTransactions

  /**
   What a session's manifest says of its scan. Without a complete one only the known names matter: the columns of its
   schema and the keys of its preview rows, where None is a row that is no dictionary. `sensitive` are the columns the
   scan reported as sensitive: those with findings and those declared sensitive when the import ran.
   */
  datatype SessionScan =
    | NotScanned(columns: seq<string>, preview: seq<Option<set<string>>>)
    | Scanned(sensitive: set<string>, found: seq<Hit>)

  function PreviewNames(preview: seq<Option<set<string>>>): set<string> {
    set row <- preview, k | row.Some? && k in row.value :: k
  }

  function SessionNames(columns: seq<string>, preview: seq<Option<set<string>>>): set<string> {
    (set c <- columns) + PreviewNames(preview)
  }

  function FoundColumns(found: seq<Hit>): set<string> {
    set h <- found :: h.column
  }

  /** Columns of an asset that are declared sensitive. */
  function DeclaredColumns(t: Tables, asset: Option<nat>): set<string> {
    if asset.Some? && asset.value < |t.assets| then
      var declared := t.assets[asset.value].declared;
      set c <- declared | Sensitive(declared[c])
    else {}
  }

  function SessionProtected(t: Tables, registered: Option<nat>, asset: Option<nat>, scan: SessionScan): set<string>
    requires Linked(t) && (registered.Some? ==> registered.value < |t.snapshots|)
  {
    if registered.Some? then Protected(t, registered.value)
    else
      match scan
      case NotScanned(columns, preview) => SessionNames(columns, preview)
      case Scanned(sensitive, found) => sensitive + FoundColumns(found) + DeclaredColumns(t, asset)
  }

  /** names.update over the schema and every preview row that is a dictionary. */
  method CollectNames(columns: seq<string>, preview: seq<Option<set<string>>>) returns (names: set<string>)
    ensures names == SessionNames(columns, preview)
  {
    names := {};
    for i := 0 to |columns|
      invariant names == set c <- columns[..i]
    {
      assert columns[..i + 1] == columns[..i] + [columns[i]];
      names := names + {columns[i]};
    }
    assert columns[..|columns|] == columns;
    for i := 0 to |preview|
      invariant names == (set c <- columns) + PreviewNames(preview[..i])
    {
      PreviewNext(preview[..i], preview[i]);
      assert preview[..i + 1] == preview[..i] + [preview[i]];
      if preview[i].Some? {
        names := names + preview[i].value;
      }
    }
    assert preview[..|preview|] == preview;
  }

  lemma PreviewNext(rows: seq<Option<set<string>>>, row: Option<set<string>>)
    ensures PreviewNames(rows + [row]) == PreviewNames(rows) + (if row.Some? then row.value else {})
  {
    assert forall x :: x in rows + [row] <==> x in rows || x == row;
  }

  /** The sets built by loops and updates. */
  method SessionProtectedColumns(db: Database, registered: Option<nat>, asset: Option<nat>, scan: SessionScan)
      returns (r: set<string>)
    requires db.Valid() && (registered.Some? ==> registered.value < |db.snapshots|)
    ensures r == SessionProtected(db.View(), registered, asset, scan)
  {
    if registered.Some? {
      var resolved := PrivacyPolicy.ResolveSnapshotProtection(db, registered.value);
      return resolved.value.protected;
    }
    match scan
    case NotScanned(columns, preview) => r := CollectNames(columns, preview);
    case Scanned(sensitive, found) =>
      r := sensitive;
      for i := 0 to |found|
        invariant r == sensitive + FoundColumns(found[..i])
      {
        assert found[..i + 1] == found[..i] + [found[i]];
        r := r + {found[i].column};
      }
      assert found[..|found|] == found;
      if asset.Some? && asset.value < |db.assets| {
        var declared := db.assets[asset.value].declared;
        r := r + set c <- declared | Sensitive(declared[c]);
      }
  }

  /** Dropping a conflicting finding never drops its column. */
  lemma {:induction false} ColumnsSurvive(found: seq<Hit>, inScan: bool)
    ensures FoundColumns(T.FirstOfEach(found, inScan)) == FoundColumns(found)
  {
    if |found| > 0 {
      var front, h := found[..|found| - 1], found[|found| - 1];
      ColumnsSurvive(front, inScan);
      assert found == front + [h];
      assert FoundColumns(found) == FoundColumns(front) + {h.column};
      var earlier := T.FirstOfEach(front, inScan);
      if exists e <- earlier :: T.Collide(e, h, inScan) {
        assert h.column in FoundColumns(earlier);
        assert FoundColumns(front) + {h.column} == FoundColumns(front);
      } else {
        assert FoundColumns(earlier + [h]) == FoundColumns(earlier) + {h.column};
      }
    }
  }

  /** A registration from a scanned session; sessions older than rule versions carry no pin. */
  function Registered(t: Tables, tenant: string, target: Option<nat>, columns: seq<string>, pin: Option<Pinned>,
                      found: seq<Hit>)
    : (Tables, Option<nat>)
    requires Linked(t)
  {
    T.Register(t, tenant, target, columns, Recorded(if pin.Some? then Some(pin.value.configVersion) else None), pin,
               found)
  }

  /** The new snapshot's own scan, when the manifest carries its pin. */
  function OwnScan(t: Tables, pin: Option<Pinned>): Option<nat> {
    if pin.Some? then Some(|t.jobs|) else None
  }

  /** What the tables hold of a snapshot right after its registration. */
  lemma RegisteredRows(t: Tables, tenant: string, target: Option<nat>, columns: seq<string>, pin: Option<Pinned>,
                       found: seq<Hit>)
    requires Linked(t) && Registered(t, tenant, target, columns, pin, found).1.Some?
    ensures var (u, r) := Registered(t, tenant, target, columns, pin, found);
            var n, scan := |t.snapshots|, OwnScan(t, pin);
            var kept := T.FirstOfEach(found, pin.Some?);
            && r == Some(n) && |u.snapshots| == n + 1 && u.snapshots[n].columns == columns
            && u.snapshots[n].importScan == Recorded(if pin.Some? then Some(pin.value.configVersion) else None)
            && (target.Some? ==>
                u.assets == t.assets && u.snapshots[n].asset == target.value < |t.assets|
                  && t.assets[target.value].tenant == tenant)
            && (target.None? ==>
                u.snapshots[n].asset == |t.assets| && u.assets == t.assets + [Asset(tenant, 0, map[], map[])])
            && u.jobs == (if pin.Some? then t.jobs + [Job(n, Apply, Complete, pin.value, t.clock, None, 0, 0, None)]
                          else t.jobs)
            && u.findings == t.findings + seq(|kept|, i requires 0 <=
                                              i < |kept| => Finding(n, scan, kept[i], Detected, None))
            && u.books == t.books
  {
    hide T.FirstOfEach;
  }

  lemma {:induction false} NoCandidate(jobs: seq<Job>, snapshot: nat, completeOnly: bool)
    requires forall j <- jobs :: j.snapshot != snapshot
    ensures Newest(jobs, snapshot, completeOnly) == None
  {
    if |jobs| > 0 { NoCandidate(jobs[..|jobs| - 1], snapshot, completeOnly); }
  }

  /** The import's job is the newest of the new snapshot. */
  lemma ImportJobIsNewest(jobs: seq<Job>, j: Job, completeOnly: bool)
    requires (forall k <- jobs :: k.snapshot != j.snapshot) && j.purpose.Apply? && j.state.Complete?
    ensures Newest(jobs + [j], j.snapshot, completeOnly) == Some(|jobs|)
  {
    NoCandidate(jobs, j.snapshot, completeOnly);
    assert (jobs + [j])[..|jobs|] == jobs;
  }

  lemma OwnScanIsNewest(t: Tables, n: nat, pin: Option<Pinned>, completeOnly: bool)
    requires forall k <- t.jobs :: k.snapshot != n
    ensures var jobs := if pin.Some? then t.jobs + [Job(n, Apply, Complete, pin.value, t.clock, None, 0, 0, None)]
            else t.jobs;
            Newest(jobs, n, completeOnly) == OwnScan(t, pin)
  {
    if pin.Some? {
      ImportJobIsNewest(t.jobs, Job(n, Apply, Complete, pin.value, t.clock, None, 0, 0, None), completeOnly);
    } else {
      NoCandidate(t.jobs, n, completeOnly);
    }
  }

  /** Exactly the columns with a kept finding are detected on the new snapshot. */
  lemma DetectedAreFound(u: Tables, t: Tables, n: nat, scan: Option<nat>, kept: seq<Hit>, column: string)
    requires forall f <- t.findings :: f.snapshot != n
    requires u.findings == t.findings + seq(|kept|,
                                            i requires 0 <= i < |kept| => Finding(n, scan, kept[i], Detected, None))
    requires Newest(u.jobs, n, true) == scan
    ensures DetectedColumn(u, n, column) <==> column in FoundColumns(kept)
  {
    hide Newest;
    if column in FoundColumns(kept) {
      var i :| 0 <= i < |kept| && kept[i].column == column;
      var f := Finding(n, scan, kept[i], Detected, None);
      assert u.findings[|t.findings| + i] == f && f in u.findings;
      assert Flags(u, f, n, column);
    }
    if DetectedColumn(u, n, column) {
      var f :| f in u.findings && Flags(u, f, n, column);
      var k :| 0 <= k < |u.findings| && u.findings[k] == f;
      assert forall i :: 0 <= i < |t.findings| ==> t.findings[i].snapshot != n;
      assert kept[k - |t.findings|] in kept;
    }
  }

  /** Whether the session's scan still counts as verified; without a pin it always does. */
  predicate Current(t: Tables, tenant: string, pin: Option<Pinned>) {
    pin.Some? ==> pin.value.configVersion == (if tenant in t.books then t.books[tenant].version else 0)
  }

  /**
   The mask of the new snapshot: what the scan found and what is declared now, or everything once the rules moved on.
   */
  lemma RegisteredMask(t: Tables, tenant: string, target: Option<nat>, columns: seq<string>, pin: Option<Pinned>,
                       found: seq<Hit>)
    requires Linked(t) && Registered(t, tenant, target, columns, pin, found).1.Some?
    ensures var u := Registered(t, tenant, target, columns, pin, found).0;
            && Linked(u) && |t.snapshots| < |u.snapshots|
            && Protected(u, |t.snapshots|) ==
                 (if Current(t, tenant, pin) then FoundColumns(found) + DeclaredColumns(t, target)
                  else set c <- columns)
                 * (set c <- columns)
  {
    var (u, r) := Registered(t, tenant, target, columns, pin, found);
    var n, scan := |t.snapshots|, OwnScan(t, pin);
    RegisteredRows(t, tenant, target, columns, pin, found);
    ColumnsSurvive(found, pin.Some?);
    RegisteredLinked(t, tenant, target, columns, pin, found);
    OwnScanIsNewest(t, n, pin, true);
    OwnScanIsNewest(t, n, pin, false);
    hide Registered, Newest;
    var kept := T.FirstOfEach(found, pin.Some?);
    forall c | c in columns
      ensures c in Protected(u, n) <==> c in FoundColumns(found) || c in DeclaredColumns(t, target) || !Verified(u, n)
    {
      DetectedAreFound(u, t, n, scan, kept, c);
      assert DeclaredSensitive(u, n, c) <==> c in DeclaredColumns(t, target);
    }
    hide DetectedColumn, DeclaredSensitive;
    assert Verified(u, n) <==> Current(t, tenant, pin);
  }

  /**
   What registering a scanned session unmasks. Under rules that moved on since the scan: nothing, everything is masked.
   Otherwise exactly the columns the manifest calls sensitive although nothing was found in them and they are not
   declared any more; so it keeps every mask exactly when there is no such column, and it never adds one.
   */
  lemma RegisteringUnmasks(t: Tables, tenant: string, target: Option<nat>, columns: seq<string>, pin: Option<Pinned>,
                           sensitive: set<string>, found: seq<Hit>)
    requires Linked(t) && Registered(t, tenant, target, columns, pin, found).1.Some?
    ensures var u := Registered(t, tenant, target, columns, pin, found).0;
            var n, all := |t.snapshots|, set c <- columns;
            && Linked(u) && n < |u.snapshots|
            && var before := SessionProtected(t, None, target, Scanned(sensitive, found)) * all;
               var after := SessionProtected(u, Some(n), target, Scanned(sensitive, found));
               && (!Current(t, tenant, pin) ==> after == all)
               && (Current(t, tenant, pin) ==>
                     && after <= before
                     && before - after == (sensitive - FoundColumns(found) - DeclaredColumns(t, target)) * all
                     && (before <= after <==>
                           forall c <- sensitive * all :: c in FoundColumns(found) || c in DeclaredColumns(t, target)))
  {
    RegisteredMask(t, tenant, target, columns, pin, found);
    hide Registered, Protected, FoundColumns, DeclaredColumns, Current, Linked;
    var all := set c <- columns;
    MaskDifference(sensitive, FoundColumns(found), DeclaredColumns(t, target), all);
  }

  lemma MaskDifference(sensitive: set<string>, found: set<string>, declared: set<string>, all: set<string>)
    ensures var before, after := (sensitive + found + declared) * all, (found + declared) * all;
            && after <= before && before - after == (sensitive - found - declared) * all
            && (before <= after <==> forall c <- sensitive * all :: c in found || c in declared)
  {
    var before, after := (sensitive + found + declared) * all, (found + declared) * all;
    if before <= after {
      forall c | c in sensitive * all
        ensures c in found || c in declared
      {
        assert c in before;
      }
    }
  }

  /** It happens: a column declared when the import ran, found clean, and withdrawn before the registration. */
  lemma WithdrawnDeclarationUnmasks(t: Tables, tenant: string, asset: nat, c: string, pin: Option<Pinned>)
    requires Linked(t) && asset < |t.assets| && t.assets[asset].tenant == tenant && c !in t.assets[asset].declared
    requires Current(t, tenant, pin)
    ensures c in SessionProtected(t, None, Some(asset), Scanned({c}, []))
    ensures var (u, r) := Registered(t, tenant, Some(asset), [c], pin, []);
            r == Some(|t.snapshots|) && Linked(u) && |t.snapshots| < |u.snapshots| && Protected(u, |t.snapshots|) == {}
  {
    assert Registered(t, tenant, Some(asset), [c], pin, []).1 == Some(|t.snapshots|);
    RegisteredMask(t, tenant, Some(asset), [c], pin, []);
    hide Registered, Protected, Current, Linked;
    assert c !in DeclaredColumns(t, Some(asset));
  }

  lemma RegisteredLinked(t: Tables, tenant: string, target: Option<nat>, columns: seq<string>, pin: Option<Pinned>,
                         found: seq<Hit>)
    requires Linked(t)
    ensures Linked(Registered(t, tenant, target, columns, pin, found).0)
    ensures forall k <- t.jobs :: k.snapshot != |t.snapshots|
    ensures forall f <- t.findings :: f.snapshot != |t.snapshots|
  {
    hide T.FirstOfEach;
  }
}
