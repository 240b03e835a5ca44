/** An imported session over whole runs: from its scan, through its registration, to any later look at its snapshot. */
module SessionRuns {
  import opened Wrappers
  import opened DetectorRules
  import opened PrivacyTables
  import T = PrivacyTransactions
  import opened PrivacySystem
  import opened PrivacyInvariants
  import opened PrivacyRuns
  import opened PrivacyTheorems
  import opened PrivacyMasks
  import opened SessionProtection

  /** The reasons to mask a column of a session that is not registered yet. */
  ghost predicate SessionMasks(t: Tables, asset: Option<nat>, scan: SessionScan, column: string) {
    match scan
    case NotScanned(columns, preview) => column in columns || exists row <- preview :: row.Some? && column in row.value
    case Scanned(sensitive, found) =>
      || column in sensitive || (exists h <- found :: h.column == column)
      || (asset.Some? && asset.value < |t.assets| && column in t.assets[asset.value].declared
          && PersonalOrSecret(t.assets[asset.value].declared[column]))
  }

  /**
   A registered session masks what its snapshot masks. Any other masks, before a complete scan, every name that is known
   of it, and then exactly what its manifest calls sensitive, what was found in it, and what its asset declares now to
   be personal data or business secrets.
   */
  lemma SessionMaskExactly(t: Tables, registered: Option<nat>, asset: Option<nat>, scan: SessionScan, column: string)
    requires Linked(t) && (registered.Some? ==> registered.value < |t.snapshots|)
    ensures column in SessionProtected(t, registered, asset, scan) <==>
            if registered.Some? then column in Protected(t, registered.value) else SessionMasks(t, asset, scan, column)
  {
    hide Protected, Linked;
  }

  lemma StepKeepsPins(w: World, step: Step)
    requires WorldInv(w)
    ensures w.pins <= Next(w, step).pins
  {
    assert Linked(w.db);
    hide WorldInv;
  }

  lemma {:induction false} PinsLast(before: seq<Step>, more: seq<Step>)
    ensures Run(before).pins <= Run(before + more).pins
    decreases |more|
  {
    hide WorldInv, Next;
    if |more| == 0 {
      assert before + more == before;
    } else {
      var front := more[..|more| - 1];
      PinsLast(before, front);
      assert before + more == (before + front) + [more[|more| - 1]];
      RunExtend(before + front, more[|more| - 1]);
      StepKeepsPins(Run(before + front), more[|more| - 1]);
    }
  }

  /** The run of one session: its import pins the rules, it is registered, and time goes on. */
  datatype Story = Story(earlier: seq<Step>, inspecting: seq<Step>, later: seq<Step>, tenant: string,
                         target: Option<nat>, columns: seq<string>, found: seq<Hit>)
  {
    function Imported(): seq<Step> {
      earlier + [PinForImport(tenant)]
    }

    ghost function Pin(): nat {
      |Run(earlier).pins|
    }

    ghost function Pinned(): Option<Pinned> {
      var pins := Run(Imported()).pins;
      if Pin() < |pins| then Some(pins[Pin()].pinned) else None
    }

    function BeforeRegistration(): seq<Step> {
      Imported() + inspecting
    }

    ghost function Registration(): Step {
      var version := if Pinned().Some? then Some(Pinned().value.configVersion) else None;
      Step.Register(tenant, target, columns, Recorded(version), Some(Pin()), found)
    }

    ghost function AfterRegistration(): seq<Step> {
      BeforeRegistration() + [Registration()]
    }

    /** What the manifest calls sensitive: what was found, and what was declared when the import ran. */
    ghost function Reported(): set<string> {
      FoundColumns(found) + DeclaredColumns(Run(Imported()).db, target)
    }
  }

  /** The pin the import takes is still the session's when it is registered. */
  lemma PinIsKept(s: Story)
    ensures var w := Run(s.Imported());
            && s.tenant in w.db.books && s.Pinned() == Some(Load(w.db.books[s.tenant]))
            && Load(w.db.books[s.tenant]).configVersion == w.db.books[s.tenant].version
    ensures var pins := Run(s.BeforeRegistration()).pins;
            s.Pin() < |pins| && pins[s.Pin()] == ImportPin(s.tenant, s.Pinned().value)
  {
    RunExtend(s.earlier, PinForImport(s.tenant));
    var v := Run(s.earlier);
    assert Run(s.Imported()).pins == v.pins + [ImportPin(s.tenant, Load(Run(s.Imported()).db.books[s.tenant]))] by {
      hide Run, Load, WorldInv;
    }
    PinsLast(s.Imported(), s.inspecting);
    hide Run, SeedBook, WorldInv;
  }

  /** The target is the tenant's own asset, or a new one. */
  ghost predicate Targeted(s: Story) {
    var assets := Run(s.BeforeRegistration()).db.assets;
    s.target.Some? ==> s.target.value < |assets| && assets[s.target.value].tenant == s.tenant
  }

  lemma RegisterStep(w: World, tenant: string, target: Option<nat>, columns: seq<string>, pin: nat, pinned: Pinned,
                     found: seq<Hit>)
    requires Linked(w.db) && pin < |w.pins| && w.pins[pin] == ImportPin(tenant, pinned)
    requires target.Some? ==> target.value < |w.db.assets| && w.db.assets[target.value].tenant == tenant
    ensures var t := Advance(w).db;
            var step := Step.Register(tenant, target, columns, Recorded(Some(pinned.configVersion)), Some(pin), found);
            && Linked(t) && Registered(t, tenant, target, columns, Some(pinned), found).1.Some?
            && Next(w, step).db == Registered(t, tenant, target, columns, Some(pinned), found).0
  {
    assert Linked(Advance(w).db);
    hide T.FirstOfEach, Linked;
  }

  lemma RegistrationStep(s: Story)
    requires Targeted(s)
    ensures var t := Advance(Run(s.BeforeRegistration())).db;
            && Linked(t) && s.Pinned().Some?
            && Registered(t, s.tenant, s.target, s.columns, s.Pinned(), s.found).1.Some?
            && Run(s.AfterRegistration()).db == Registered(t, s.tenant, s.target, s.columns, s.Pinned(), s.found).0
  {
    hide Run, Load, WorldInv, Registered, Next, Advance, Linked;
    PinIsKept(s);
    RunExtend(s.BeforeRegistration(), s.Registration());
    RegisterStep(Run(s.BeforeRegistration()), s.tenant, s.target, s.columns, s.Pin(), s.Pinned().value, s.found);
  }

  /** The same version of a tenant's rules now as when the import pinned them. */
  ghost predicate RulesStand(s: Story) {
    ConfigVersion(Run(s.Imported()).db, s.tenant) == ConfigVersion(Run(s.BeforeRegistration()).db, s.tenant)
  }

  lemma RulesStandWhenCurrent(s: Story)
    ensures Current(Advance(Run(s.BeforeRegistration())).db, s.tenant, s.Pinned()) <==> RulesStand(s)
  {
    PinIsKept(s);
    RunEvolves(s.Imported(), s.inspecting);
    BooksStay(Run(s.Imported()).db, Run(s.BeforeRegistration()).db, s.tenant);
    hide Run, Load, WorldInv, Evolves, MaskKept, Inv;
  }

  lemma BooksStay(a: Tables, b: Tables, tenant: string)
    requires Evolves(a, b) && tenant in a.books
    ensures tenant in b.books
  {
    hide WellFormed, Load;
  }

  lemma TimeDeclaresNothing(t: Tables, later: nat, target: Option<nat>, scan: SessionScan)
    requires Linked(t)
    ensures var u := t.(clock := later);
            Linked(u) && DeclaredColumns(u, target) == DeclaredColumns(t, target)
            && SessionProtected(u, None, target, scan) == SessionProtected(t, None, target, scan)
  {
  }

  /** What a snapshot masks compared with its session just before the registration, in tables `now`. */
  ghost predicate MasksAs(s: Story, now: Tables, mask: set<string>)
    requires Linked(now)
  {
    var all := set c <- s.columns;
    var masked := SessionProtected(now, None, s.target, Scanned(s.Reported(), s.found)) * all;
    && (!RulesStand(s) ==> mask == all)
    && (RulesStand(s) ==>
          && mask <= masked
          && masked - mask ==
               (DeclaredColumns(Run(s.Imported()).db, s.target) - FoundColumns(s.found) - DeclaredColumns(now,
                                                                                                          s.target))
               * all)
  }

  lemma MaskAtRegistration(s: Story, now: Tables, t: Tables)
    requires now == Run(s.BeforeRegistration()).db && t == Advance(Run(s.BeforeRegistration())).db && Linked(now)
             && Linked(t)
    requires Registered(t, s.tenant, s.target, s.columns, s.Pinned(), s.found).1.Some?
    ensures var u := Registered(t, s.tenant, s.target, s.columns, s.Pinned(), s.found).0;
            Linked(u) && |now.snapshots| < |u.snapshots| && MasksAs(s, now, Protected(u, |now.snapshots|))
  {
    hide Run, Protected, WorldInv, Registered, RulesStand, Linked, FoundColumns, DeclaredColumns, Current;
    RulesStandWhenCurrent(s);
    RegisteringUnmasks(t, s.tenant, s.target, s.columns, s.Pinned(), s.Reported(), s.found);
    TimeDeclaresNothing(now, t.clock, s.target, Scanned(s.Reported(), s.found));
  }

  /**
   From scan to snapshot, whatever runs in between and afterwards: as long as neither counter has moved since the
   registration, the snapshot masks every column if the rules changed between the scan and the registration. If they did
   not, it masks what the session masked just before, except exactly the columns that were declared when the import ran,
   have no finding, and were not declared any more when it was registered.
   */
  lemma ImportToSnapshot(s: Story)
    requires Targeted(s)
    ensures var now, registered := Run(s.BeforeRegistration()).db, Run(s.AfterRegistration()).db;
            var after := Run(s.AfterRegistration() + s.later).db;
            var n := |now.snapshots|;
            && n < |registered.snapshots| && n < |after.snapshots|
            && (PolicyVersion(registered, n) == PolicyVersion(after, n)
                && ConfigVersion(registered, TenantOf(registered, n)) == ConfigVersion(after, TenantOf(after, n)) ==>
                  MasksAs(s, now, Protected(after, n)))
  {
    hide Run, Protected, WorldInv, Registered, RulesStand, Targeted, Linked, MasksAs;
    var now := Run(s.BeforeRegistration()).db;
    var t := Advance(Run(s.BeforeRegistration())).db;
    RegistrationStep(s);
    MaskAtRegistration(s, now, t);
    MaskIsDetermined(s.AfterRegistration(), s.later, |now.snapshots|);
  }
}
