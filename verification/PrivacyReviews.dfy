/** Reviews as people ask for them: what each request does, what lasts, and that nothing else decides on a finding. */
module PrivacyReviews {
  import opened Wrappers
  import opened DetectorRules
  import opened PrivacyTables
  import T = PrivacyTransactions
  import opened PrivacySystem
  import opened PrivacyInvariants
  import opened PrivacyHistory
  import opened PrivacyRuns
  import opened PrivacyTheorems

  /** Step `k` of a run asks for decision `d` on finding `f`, whose status is then the one the request expects. */
  ghost predicate Requested(steps: seq<Step>, k: nat, f: nat, d: T.Decision) {
    && k < |steps| && steps[k].UpdateStatus? && steps[k].finding == f
    && var t := Run(steps[..k]).db;
       && f < |t.findings| && t.findings[f].status == steps[k].expected
       && d.status == (if steps[k].confirm then Confirmed else Dismissed)
       && d.review == Some(Review(steps[k].reviewer, steps[k].reason, t.clock + 1))
  }

  /** The step is a request about finding `f` that expects the status the finding has. */
  ghost predicate Accepted(t: Tables, step: Step, f: nat) {
    step.UpdateStatus? && step.finding == f && f < |t.findings| && t.findings[f].status == step.expected
  }

  /** Step `k` of a run is an accepted request about finding `f`. */
  ghost predicate Decides(steps: seq<Step>, k: nat, f: nat) {
    k < |steps| && Accepted(Run(steps[..k]).db, steps[k], f)
  }

  /** After step `k` nobody decides on finding `f`. */
  ghost predicate LastWord(steps: seq<Step>, k: nat, f: nat) {
    forall i :: k < i < |steps| ==> !Decides(steps, i, f)
  }

  // ---- one request -----------------------------------------------------------------------------

  /**
   The tables after a person confirms or dismisses finding `f`: the finding has the status asked for and says who
   asked, why and when; the log says so too; the asset's revision is one further and no other row has moved.
   */
  ghost predicate Reviewed(t: Tables, u: Tables, f: nat, status: Status, reviewer: string, reason: string)
    requires Linked(t) && f < |t.findings|
  {
    var review := Review(reviewer, reason, t.clock);
    var asset := t.snapshots[t.findings[f].snapshot].asset;
    && u.findings == t.findings[f := t.findings[f].(status := status, review := Some(review))]
    && u.events == t.events + [StatusChanged(f, t.findings[f].status, status, review)]
    && u.assets == t.assets[asset := t.assets[asset].(revision := t.assets[asset].revision + 1)]
    && u == t.(findings := u.findings, events := u.events, assets := u.assets)
  }

  lemma ReviewStep(w: World, f: nat, expected: Status, confirm: bool, reviewer: string, reason: string)
    requires Linked(w.db)
    ensures var v := Do(w, UpdateStatus(f, expected, confirm, reviewer, reason));
            && v == w.(db := v.db)
            && if f < |w.db.findings| && w.db.findings[f].status == expected then
                 Reviewed(w.db, v.db, f, if confirm then Confirmed else Dismissed, reviewer, reason)
               else v.db == w.db
  {
  }

  /**
   A request to confirm or dismiss a finding does what it asks, under the name and for the reason it gives, exactly
   when the finding still has the status the request expects; otherwise it changes nothing.
   */
  lemma ReviewTakesEffect(before: seq<Step>, f: nat, expected: Status, confirm: bool, reviewer: string, reason: string)
    ensures var t := Advance(Run(before)).db;
            var u := Run(before + [UpdateStatus(f, expected, confirm, reviewer, reason)]).db;
            && Linked(t)
            && if f < |t.findings| && t.findings[f].status == expected then
                 Reviewed(t, u, f, if confirm then Confirmed else Dismissed, reviewer, reason)
               else u == t
  {
    var w := Run(before);
    RunExtend(before, UpdateStatus(f, expected, confirm, reviewer, reason));
    assert Linked(Advance(w).db);
    hide Run, WorldInv, Linked, Do, Reviewed;
    ReviewStep(Advance(w), f, expected, confirm, reviewer, reason);
  }

  // ---- nothing else decides --------------------------------------------------------------------

  /** A step keeps the decision on finding `f`, unless it is an accepted request about it. */
  lemma StepKeepsDecision(w: World, step: Step, f: nat)
    requires Inv(w.db) && Linked(w.db) && f < |w.db.findings|
    requires !Accepted(w.db, step, f)
    ensures f < |Do(w, step).db.findings| && Do(w, step).db.findings[f] == w.db.findings[f]
  {
    hide Inv, Linked, T.Publish, T.UpdateStatus;
    if step.UpdateStatus? {
      OtherReview(w.db, step, f);
    } else if step.Publish? {
      PublishAppends(w.db, w.workers, step);
    } else {
      hide Do;
      DecisionsStay(w, step);
    }
  }

  lemma OtherReview(t: Tables, step: Step, f: nat)
    requires Linked(t) && f < |t.findings| && step.UpdateStatus?
    requires !Accepted(t, step, f)
    ensures var u := T.UpdateStatus(t, step.finding, step.expected, step.confirm, step.reviewer, step.reason).0;
            f < |u.findings| && u.findings[f] == t.findings[f]
  {
    hide Linked;
  }

  lemma NextKeepsDecision(w: World, step: Step, f: nat)
    requires WorldInv(w) && Linked(w.db) && f < |w.db.findings|
    requires !Accepted(w.db, step, f)
    ensures f < |Next(w, step).db.findings| && Next(w, step).db.findings[f] == w.db.findings[f]
  {
    AdvanceKeepsWorld(w);
    InvLinked(Advance(w).db);
    hide Inv, Linked, Do;
    StepKeepsDecision(Advance(w), step, f);
  }

  lemma ReviewedDecision(t: Tables, u: Tables, f: nat, status: Status, reviewer: string, reason: string)
    requires Linked(t) && f < |t.findings| && Reviewed(t, u, f, status, reviewer, reason)
    ensures f < |u.findings|
    ensures T.DecisionOf(u.findings[f]) == T.Decision(status, Some(Review(reviewer, reason, t.clock)))
  {
    hide Linked;
  }

  lemma RequestIsTaken(front: seq<Step>, last: Step, f: nat, d: T.Decision)
    requires Requested(front + [last], |front|, f, d)
    ensures var t := Run(front + [last]).db; f < |t.findings| && T.DecisionOf(t.findings[f]) == d
  {
    hide Run, WorldInv, Linked, Reviewed;
    assert (front + [last])[..|front|] == front;
    ReviewTakesEffect(front, f, last.expected, last.confirm, last.reviewer, last.reason);
    ReviewedDecision(Advance(Run(front)).db, Run(front + [last]).db, f, if last.confirm then Confirmed else Dismissed,
                     last.reviewer, last.reason);
  }

  lemma RequestIsKept(front: seq<Step>, last: Step, f: nat)
    requires f < |Run(front).db.findings| && !Decides(front + [last], |front|, f)
    ensures var t := Run(front + [last]).db; f < |t.findings| && t.findings[f] == Run(front).db.findings[f]
  {
    hide Run, Next, WorldInv, Linked, Accepted;
    assert (front + [last])[..|front|] == front && (front + [last])[|front|] == last;
    RunExtend(front, last);
    NextKeepsDecision(Run(front), last, f);
  }

  /** The last accepted request about a finding is the decision that stands. */
  lemma {:induction false} LastRequestStands(steps: seq<Step>, k: nat, f: nat, d: T.Decision)
    requires k < |steps| && Requested(steps, k, f, d) && LastWord(steps, k, f)
    ensures f < |Run(steps).db.findings| && T.DecisionOf(Run(steps).db.findings[f]) == d
    decreases |steps|
  {
    hide Run, WorldInv, Linked, LastWord, Requested;
    var front, last := steps[..|steps| - 1], steps[|steps| - 1];
    assert front + [last] == steps;
    if k == |front| {
      RequestIsTaken(front, last, f, d);
    } else {
      RequestIsEarlier(front, last, k, f, d);
      LastRequestStands(front, k, f, d);
      RequestIsKept(front, last, f);
    }
  }

  lemma RequestIsEarlier(front: seq<Step>, last: Step, k: nat, f: nat, d: T.Decision)
    requires k < |front| && Requested(front + [last], k, f, d) && LastWord(front + [last], k, f)
    ensures Requested(front, k, f, d) && LastWord(front, k, f) && !Decides(front + [last], |front|, f)
  {
    hide Run;
    var steps := front + [last];
    assert front[..k] == steps[..k];
    forall i | k < i < |front|
      ensures !Decides(front, i, f)
    {
      assert front[..i] == steps[..i] && !Decides(steps, i, f);
    }
  }

  // ---- a confirmation masks --------------------------------------------------------------------

  /** A request to dismiss finding `f` as a confirmed one. */
  predicate AsksToDismiss(step: Step, f: nat) {
    step.UpdateStatus? && step.finding == f && step.expected == Confirmed && !step.confirm
  }

  lemma NextKeepsConfirmed(w: World, step: Step, f: nat)
    requires WorldInv(w) && Linked(w.db) && f < |w.db.findings| && w.db.findings[f].status == Confirmed
    requires !AsksToDismiss(step, f)
    ensures f < |Next(w, step).db.findings| && Next(w, step).db.findings[f].status == Confirmed
  {
    if step.UpdateStatus? && step.finding == f && step.expected == Confirmed {
      hide WorldInv, Linked;
    } else {
      hide WorldInv, Next;
      NextKeepsDecision(w, step, f);
    }
  }

  lemma {:induction false} ConfirmedUntilAsked(before: seq<Step>, more: seq<Step>, f: nat)
    requires f < |Run(before).db.findings| && Run(before).db.findings[f].status == Confirmed
    requires forall k :: 0 <= k < |more| ==> !AsksToDismiss(more[k], f)
    ensures f < |Run(before + more).db.findings| && Run(before + more).db.findings[f].status == Confirmed
    decreases |more|
  {
    hide Run, WorldInv, Next;
    if |more| == 0 {
      assert before + more == before;
    } else {
      var front, last := more[..|more| - 1], more[|more| - 1];
      ConfirmedUntilAsked(before, front, f);
      assert before + more == (before + front) + [last];
      RunExtend(before + front, last);
      NextKeepsConfirmed(Run(before + front), last, f);
    }
  }

  lemma ConfirmedIsMasked(t: Tables, f: nat)
    requires Linked(t) && f < |t.findings| && t.findings[f].status == Confirmed
    ensures var found := t.findings[f];
            found.snapshot < |t.snapshots|
            && (found.hit.column in t.snapshots[found.snapshot].columns ==>
                  found.hit.column in Protected(t, found.snapshot))
  {
    hide Verified, DeclaredSensitive, Newest;
    assert t.findings[f] in t.findings;
    assert Flags(t, t.findings[f], t.findings[f].snapshot, t.findings[f].hit.column);
  }

  lemma ReviewedFinding(t: Tables, u: Tables, f: nat, status: Status, reviewer: string, reason: string)
    requires Linked(t) && f < |t.findings| && Reviewed(t, u, f, status, reviewer, reason)
    ensures f < |u.findings| && u.findings[f].status == status && FindingMoves(t.findings[f], u.findings[f])
  {
    hide Linked;
  }

  /** An accepted request leaves the finding with the status asked for. */
  lemma AfterRequest(before: seq<Step>, f: nat, expected: Status, confirm: bool, who: string, why: string)
    requires f < |Run(before).db.findings| && Run(before).db.findings[f].status == expected
    ensures var a, u := Run(before).db, Run(before + [UpdateStatus(f, expected, confirm, who, why)]).db;
            && f < |u.findings| && u.findings[f].status == (if confirm then Confirmed else Dismissed)
            && FindingMoves(a.findings[f], u.findings[f])
  {
    hide Run, WorldInv, Linked, Reviewed, FindingMoves;
    ReviewTakesEffect(before, f, expected, confirm, who, why);
    ReviewedFinding(Advance(Run(before)).db, Run(before + [UpdateStatus(f, expected, confirm, who, why)]).db, f,
                    if confirm then Confirmed else Dismissed, who, why);
  }

  /**
   Whoever confirms a finding gets its column masked; it stays masked whatever runs, and if it is ever in clear again,
   somebody has asked to dismiss that finding as a confirmed one.
   */
  lemma ConfirmationMasks(before: seq<Step>, more: seq<Step>, f: nat, expected: Status, who: string, why: string)
    requires f < |Run(before).db.findings| && Run(before).db.findings[f].status == expected
    ensures var found := Run(before).db.findings[f];
            var b := Run(before + [UpdateStatus(f, expected, true, who, why)] + more).db;
            && found.snapshot < |b.snapshots|
            && (found.hit.column in b.snapshots[found.snapshot].columns
                && found.hit.column !in Protected(b, found.snapshot) ==>
                  exists k :: 0 <= k < |more| && AsksToDismiss(more[k], f))
  {
    hide Run, WorldInv, Protected, Linked;
    var asked := before + [UpdateStatus(f, expected, true, who, why)];
    AfterRequest(before, f, expected, true, who, why);
    SameFinding(asked, more, f);
    if forall k :: 0 <= k < |more| ==> !AsksToDismiss(more[k], f) {
      ConfirmedUntilAsked(asked, more, f);
      ConfirmedIsMasked(Run(asked + more).db, f);
    }
  }

  lemma SameFinding(before: seq<Step>, more: seq<Step>, f: nat)
    requires f < |Run(before).db.findings|
    ensures f < |Run(before + more).db.findings|
    ensures FindingMoves(Run(before).db.findings[f], Run(before + more).db.findings[f])
    ensures Run(before).db.findings[f].snapshot < |Run(before + more).db.snapshots|
  {
    var a, b := Run(before).db, Run(before + more).db;
    RunEvolves(before, more);
    EvolvesGrows(a, b);
    hide Run, WorldInv, Evolves, MaskKept, Inv;
    assert b.findings[f] in b.findings;
  }

  // ---- every decision was asked for ------------------------------------------------------------

  lemma {:induction false} ClassifyLogsNoReview(asset: nat, declared: map<string, Category>, changes: seq<T.Change>)
    ensures forall e <- T.ChangeEvents(asset, declared, changes) :: !e.StatusChanged?
    decreases |changes|
  {
    if |changes| > 0 {
      ClassifyLogsNoReview(asset, T.Declare(declared, [changes[0]]), changes[1..]);
    }
  }

  ghost predicate LogsNoReview(t: Tables, u: Tables) {
    t.events <= u.events && forall i :: |t.events| <= i < |u.events| ==> !u.events[i].StatusChanged?
  }

  lemma PublishLogsNoReview(t: Tables, l: T.Lease, found: seq<Hit>)
    requires Linked(t)
    ensures LogsNoReview(t, T.Publish(t, l, found).0)
  {
    hide T.Rows, T.DecisionsBefore, Linked;
  }

  lemma ScanLogsNoReview(t: Tables, snapshot: nat, sel: T.Selection)
    requires Linked(t)
    ensures LogsNoReview(t, T.CreateScan(t, snapshot, sel).0)
  {
    hide Linked, SeedBook, T.PinFor;
  }

  lemma EditsLogNoReview(t: Tables)
    ensures forall tenant, id, p :: LogsNoReview(t, T.AddRule(t, tenant, id, p))
    ensures forall tenant, id, p :: LogsNoReview(t, T.ReviseRule(t, tenant, id, p))
    ensures forall b, version, categories :: LogsNoReview(t, T.SetPolicy(t, b, version, categories).0)
    ensures forall owner, seconds, locked :: LogsNoReview(t, T.Claim(t, owner, seconds, locked).0)
    ensures forall l, seconds :: LogsNoReview(t, T.Heartbeat(t, l, seconds).0)
    ensures forall l, code :: LogsNoReview(t, T.Fail(t, l, code).0)
  {
    hide SeedBook, CreateRule, UpdateRule, T.Remask, T.MaskedCategories, T.Oldest;
  }

  lemma BatchLogsNoReview(t: Tables, asset: nat, s: nat, version: nat, changes: seq<T.Change>)
    requires Linked(t)
    ensures LogsNoReview(t, T.Classify(t, asset, s, version, changes).0)
  {
    if asset < |t.assets| {
      ClassifyLogsNoReview(asset, t.assets[asset].declared, changes);
    }
    hide Linked, T.Declare, T.ChangeEvents;
  }

  lemma ImportLogsNoReview(t: Tables, tenant: string, target: Option<nat>, columns: seq<string>, importScan: ImportScan,
                           pin: Option<Pinned>, found: seq<Hit>)
    requires Linked(t)
    ensures LogsNoReview(t, T.Register(t, tenant, target, columns, importScan, pin, found).0)
  {
    hide Linked, T.FirstOfEach;
  }

  lemma WritingStepsLogNoReview(w: World, step: Step)
    requires Linked(w.db) && (step.Publish? || step.CreateScan? || step.Register? || step.Classify?)
    ensures LogsNoReview(w.db, Do(w, step).db)
  {
    hide Linked, T.Publish, T.CreateScan, T.Register, T.Classify;
    match step
    case Publish(i, found) => if i < |w.workers| { PublishLogsNoReview(w.db, w.workers[i].lease, found); }
    case CreateScan(snapshot, sel) => ScanLogsNoReview(w.db, snapshot, sel);
    case Classify(asset, s, version, changes) => BatchLogsNoReview(w.db, asset, s, version, changes);
    case Register(tenant, target, columns, importScan, pin, found) =>
      ImportLogsNoReview(w.db, tenant, target, columns, importScan, None, found);
      if pin.Some? && pin.value < |w.pins| {
        ImportLogsNoReview(w.db, tenant, target, columns, importScan, Some(w.pins[pin.value].pinned), found);
      }
  }

  lemma StepLogsNoReview(w: World, step: Step)
    requires Linked(w.db) && !step.UpdateStatus?
    ensures LogsNoReview(w.db, Do(w, step).db)
  {
    if step.Publish? || step.CreateScan? || step.Register? || step.Classify? {
      WritingStepsLogNoReview(w, step);
    } else {
      EditsLogNoReview(w.db);
      hide Linked, SeedBook, Load, T.AddRule, T.ReviseRule, T.SetPolicy, T.Claim, T.Heartbeat, T.Fail, Protected;
    }
  }

  /** A request behind an event of the log: it named this finding and expected the status the event starts from. */
  ghost predicate RequestBehind(steps: seq<Step>, k: nat, e: Event) {
    && e.StatusChanged? && Requested(steps, k, e.finding, T.Decision(e.after, Some(e.review)))
    && steps[k].expected == e.before
  }

  lemma RequestBehindLasts(steps: seq<Step>, step: Step, k: nat, e: Event)
    requires RequestBehind(steps, k, e)
    ensures RequestBehind(steps + [step], k, e)
  {
    hide Run;
    assert (steps + [step])[..k] == steps[..k];
  }

  /** Where an event that step `last` adds to the log comes from. */
  lemma LastRequestBehind(front: seq<Step>, last: Step, i: nat)
    requires |Run(front).db.events| <= i < |Run(front + [last]).db.events|
    requires Run(front + [last]).db.events[i].StatusChanged?
    ensures RequestBehind(front + [last], |front|, Run(front + [last]).db.events[i])
  {
    var w, v := Advance(Run(front)), Run(front + [last]);
    RunExtend(front, last);
    hide Run, WorldInv, Do;
    assert Linked(w.db);
    hide Linked;
    if last.UpdateStatus? {
      ReviewTakesEffect(front, last.finding, last.expected, last.confirm, last.reviewer, last.reason);
      assert (front + [last])[..|front|] == front;
      assert i == |w.db.events|;
    } else {
      StepLogsNoReview(w, last);
    }
  }

  lemma LogGrows(front: seq<Step>, last: Step)
    ensures Run(front).db.events <= Run(front + [last]).db.events
  {
    RunEvolves(front, [last]);
    EvolvesGrows(Run(front).db, Run(front + [last]).db);
    hide Run, WorldInv, Evolves, MaskKept;
  }

  ghost predicate HasRequest(steps: seq<Step>, e: Event) {
    exists k :: RequestBehind(steps, k, e)
  }

  lemma RequestLasts(front: seq<Step>, last: Step, i: nat)
    requires i < |Run(front).db.events| && HasRequest(front, Run(front).db.events[i])
    ensures i < |Run(front + [last]).db.events| && HasRequest(front + [last], Run(front + [last]).db.events[i])
  {
    hide Run, WorldInv, Linked, RequestBehind;
    LogGrows(front, last);
    var k :| RequestBehind(front, k, Run(front).db.events[i]);
    RequestBehindLasts(front, last, k, Run(front).db.events[i]);
  }

  lemma NothingLogged(steps: seq<Step>)
    requires |steps| == 0
    ensures Run(steps).db.events == []
  {
  }

  /** Every review on the log was asked for, with this status, by this person, for this reason and at this time. */
  lemma {:induction false} ReviewsWereRequested(steps: seq<Step>, i: nat)
    requires i < |Run(steps).db.events| && Run(steps).db.events[i].StatusChanged?
    ensures HasRequest(steps, Run(steps).db.events[i])
    decreases |steps|
  {
    hide Run, WorldInv, Linked, HasRequest;
    if |steps| == 0 {
      NothingLogged(steps);
    } else {
      var front, last := steps[..|steps| - 1], steps[|steps| - 1];
      assert front + [last] == steps;
      if i < |Run(front).db.events| {
        LogGrows(front, last);
        ReviewsWereRequested(front, i);
        RequestLasts(front, last, i);
      } else {
        LastReviewRequested(front, last, i);
      }
    }
  }

  lemma LastReviewRequested(front: seq<Step>, last: Step, i: nat)
    requires |Run(front).db.events| <= i < |Run(front + [last]).db.events|
    requires Run(front + [last]).db.events[i].StatusChanged?
    ensures HasRequest(front + [last], Run(front + [last]).db.events[i])
  {
    hide Run, WorldInv, Linked, RequestBehind;
    LastRequestBehind(front, last, i);
  }

  ghost predicate AskedFor(steps: seq<Step>, f: nat, d: T.Decision) {
    exists k :: Requested(steps, k, f, d)
  }

  /** Consecutive complete scans all made this finding, from `chain[0]` back to the last of the chain. */
  ghost predicate GoesBack(t: Tables, chain: seq<nat>, f: nat) {
    |chain| > 0 && chain[0] == f && forall i :: 0 <= i < |chain| - 1 ==> Succeeds(t, chain[i], chain[i + 1])
  }

  /**
   Every decision a finding carries was asked for by a person: it goes back through consecutive complete APPLY scans,
   that all found the same rule revision in the same column and path, to a finding for which a request of the run asked
   for this very status under this name, for this reason and at this time, and was accepted.
   */
  lemma DecisionsTraceToRequests(steps: seq<Step>, f: nat)
    requires f < |Run(steps).db.findings| && !Run(steps).db.findings[f].status.Detected?
    ensures var t := Run(steps).db;
            exists chain :: GoesBack(t, chain, f)
                            && AskedFor(steps, chain[|chain| - 1], T.DecisionOf(t.findings[f]))
  {
    hide Run, WorldInv, Succeeds, Requested;
    var t := Run(steps).db;
    DecisionsTraceToPeople(steps, f);
    var chain :| DecisionChain(t, chain, T.DecisionOf(t.findings[f])) && chain[0] == f;
    assert GoesBack(t, chain, f);
    var e :| e in t.events && e.StatusChanged? && e.finding == chain[|chain| - 1]
             && T.DecisionOf(t.findings[f]) == T.Decision(e.after, Some(e.review));
    var i :| 0 <= i < |t.events| && t.events[i] == e;
    ReviewsWereRequested(steps, i);
    var k :| RequestBehind(steps, k, e);
  }
}
