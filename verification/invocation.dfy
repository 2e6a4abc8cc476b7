/**
 One invocation request as a sequence of atomic steps, with ledger operations of other requests
 between any two of them: resolve, plan and register, check, dispatch, wait for the provider, check
 again, release.
 */
module Invocation {
  import opened Prelude
  import opened Ledger
  import opened LedgerSafety
  import opened LedgerHistory
  import opened Admission

  /** What one request asks for, and the byte budget of its vertical. */
  datatype Request = Request(vertical: string, scope: string, digests: seq<Digest>, budget: nat, minimumEvidence: nat)

  /** The gates of a plan that do not look at evidence, as the environment answers them. */
  datatype Surroundings = Surroundings(
    sourceBound: bool, verticalReady: bool, endpointBound: bool, revisionDeclared: bool, lambdaFloorMet: bool,
    contextBudgetMet: bool, servingContractMet: bool, bindingBlockers: set<string>)

  datatype PlanBlocker =
    | SourceUnbound | VerticalNotReady | EndpointNotBound | RevisionNotDeclared | EvidenceNotResolved
    | EvidenceStale | EvidenceBelowMinimum | LambdaBelowFloor | ContextTooLarge | ServingContractNotMet
    | FromBinding(text: string) | FromEvidence(blocker: Blocker)

  /** The distinct payloads a snapshot holds. */
  function Cited(snap: Snapshot): set<Digest> {
    set i | 0 <= i < |snap.records| :: snap.records[i].payload
  }

  function ResolvedCount(snap: Snapshot): Option<nat> {
    if snap.state == Unavailable then None else Some(|Cited(snap)|)
  }

  function Unless(open: bool, b: PlanBlocker): (r: set<PlanBlocker>)
    ensures forall x :: x in r <==> !open && x == b
  {
    if open then {} else {b}
  }

  function AroundBlockers(around: Surroundings): set<PlanBlocker> {
    Unless(around.sourceBound, SourceUnbound)
    + Unless(around.verticalReady, VerticalNotReady)
    + Unless(around.endpointBound, EndpointNotBound)
    + Unless(around.revisionDeclared, RevisionNotDeclared)
    + Unless(around.lambdaFloorMet, LambdaBelowFloor)
    + Unless(around.contextBudgetMet, ContextTooLarge)
    + Unless(around.servingContractMet, ServingContractNotMet)
  }

  function PlanBlockers(req: Request, around: Surroundings, snap: Snapshot, now: Time): set<PlanBlocker> {
    var count := ResolvedCount(snap);
    AroundBlockers(around)
    + Unless(snap.state == Complete, EvidenceNotResolved)
    + Unless(snap.FreshAt(now), EvidenceStale)
    + Unless(count.Some? && count.value >= req.minimumEvidence, EvidenceBelowMinimum)
    + (set t | t in around.bindingBlockers :: FromBinding(t))
    + (set b | b in snap.blockers :: FromEvidence(b))
  }

  /** Every record was observed by then and has not expired. */
  predicate AllFresh(snap: Snapshot, now: Time) {
    snap.records != [] && forall i | 0 <= i < |snap.records| ::
      snap.records[i].observedAt <= now && now < snap.records[i].expiresAt
  }

  /** All that a plan asks for, written out. */
  predicate GatesOpen(req: Request, around: Surroundings, snap: Snapshot, now: Time) {
    && around.sourceBound && around.verticalReady && around.endpointBound && around.revisionDeclared
    && around.lambdaFloorMet && around.contextBudgetMet && around.servingContractMet && around.bindingBlockers == {}
    && snap.state == Complete && snap.blockers == {} && AllFresh(snap, now)
    && |Cited(snap)| >= req.minimumEvidence
  }

  predicate InScopeOf(c: Codec, req: Request, snap: Snapshot) {
    && snap.vertical == req.vertical && snap.scopeBinding == c.scopeId(req.vertical, req.scope)
    && snap.requested == Ascending(Elements(req.digests))
  }

  lemma AroundExactly(around: Surroundings, x: PlanBlocker)
    ensures x in AroundBlockers(around) <==>
      match x
      case SourceUnbound => !around.sourceBound
      case VerticalNotReady => !around.verticalReady
      case EndpointNotBound => !around.endpointBound
      case RevisionNotDeclared => !around.revisionDeclared
      case LambdaBelowFloor => !around.lambdaFloorMet
      case ContextTooLarge => !around.contextBudgetMet
      case ServingContractNotMet => !around.servingContractMet
      case _ => false
  {
    hide Unless;
  }

  lemma FreshExactly(snap: Snapshot, now: Time)
    ensures snap.FreshAt(now) <==> snap.state == Complete && AllFresh(snap, now)
  {
  }

  /** When a blocker is due. */
  predicate Due(req: Request, around: Surroundings, snap: Snapshot, now: Time, x: PlanBlocker) {
    match x
    case SourceUnbound => !around.sourceBound
    case VerticalNotReady => !around.verticalReady
    case EndpointNotBound => !around.endpointBound
    case RevisionNotDeclared => !around.revisionDeclared
    case LambdaBelowFloor => !around.lambdaFloorMet
    case ContextTooLarge => !around.contextBudgetMet
    case ServingContractNotMet => !around.servingContractMet
    case EvidenceNotResolved => snap.state != Complete
    case EvidenceStale => snap.state != Complete || !AllFresh(snap, now)
    case EvidenceBelowMinimum => snap.state == Unavailable || |Cited(snap)| < req.minimumEvidence
    case FromBinding(text) => text in around.bindingBlockers
    case FromEvidence(blocker) => blocker in snap.blockers
  }

  /** A plan lists exactly the blockers that are due. */
  lemma BlockersExactly(req: Request, around: Surroundings, snap: Snapshot, now: Time, x: PlanBlocker)
    ensures x in PlanBlockers(req, around, snap, now) <==> Due(req, around, snap, now, x)
  {
    hide Cited, Unless, AllFresh, AroundBlockers, Snapshot.FreshAt;
    AroundExactly(around, x);
    FreshExactly(snap, now);
    var references := set b | b in snap.blockers :: FromEvidence(b);
    var bindings := set t | t in around.bindingBlockers :: FromBinding(t);
    assert x in bindings <==> x.FromBinding? && x.text in around.bindingBlockers;
    assert x in references <==> x.FromEvidence? && x.blocker in snap.blockers;
  }

  /** A plan has no blocker exactly when everything it asks for is there. */
  lemma GatesOpenExactly(req: Request, around: Surroundings, snap: Snapshot, now: Time)
    ensures PlanBlockers(req, around, snap, now) == {} <==> GatesOpen(req, around, snap, now)
  {
    hide PlanBlockers, AllFresh, Cited;
    var blockers := PlanBlockers(req, around, snap, now);
    forall x ensures x in blockers <==> Due(req, around, snap, now, x) { BlockersExactly(req, around, snap, now, x); }
    if blockers == {} {
      assert !Due(req, around, snap, now, SourceUnbound) && !Due(req, around, snap, now, VerticalNotReady);
      assert !Due(req, around, snap, now, EndpointNotBound) && !Due(req, around, snap, now, RevisionNotDeclared);
      assert !Due(req, around, snap, now, LambdaBelowFloor) && !Due(req, around, snap, now, ContextTooLarge);
      assert !Due(req, around, snap, now, ServingContractNotMet) && !Due(req, around, snap, now, EvidenceNotResolved);
      assert !Due(req, around, snap, now, EvidenceStale) && !Due(req, around, snap, now, EvidenceBelowMinimum);
      forall t ensures t !in around.bindingBlockers { assert !Due(req, around, snap, now, FromBinding(t)); }
      forall b ensures b !in snap.blockers { assert !Due(req, around, snap, now, FromEvidence(b)); }
    }
    if GatesOpen(req, around, snap, now) {
      forall x ensures x !in blockers { assert !Due(req, around, snap, now, x); }
    }
  }

  datatype Phase =
    | Idle
    | Resolved(snap: Snapshot)
    | Registered(snap: Snapshot, key: Key)
    | Dated(snap: Snapshot, key: Key)
    | Cleared(snap: Snapshot, key: Key)
    | Dispatched(snap: Snapshot, key: Key)
    | Answered(snap: Snapshot, key: Key, reply: string)
    | Confirmed(snap: Snapshot, key: Key, reply: string)
    | Settled(snap: Snapshot, key: Key, reply: string)
    | Released(snap: Snapshot, key: Key, reply: string)
    | Refused

  predicate Planned(p: Phase) { !p.Idle? && !p.Resolved? && !p.Refused? }

  /** After the second status check. */
  predicate PastCheck(p: Phase) { p.Confirmed? || p.Settled? || p.Released? }

  /** `registered` and `confirmed` count the events up to registration and up to the second status check,
      `settled` those up to the final resolution. */
  datatype System = System(db: Db, phase: Phase, steps: nat, registered: nat, confirmed: nat, settled: nat)

  datatype Event =
    | Other(op: Op)
    | ResolveStep(up: bool, now: Time)
    | PlanStep(up: bool, around: Surroundings, id: Digest, now: Time, reading: Reading)
    | FreshStep(now: Time)
    | FirstStatus(up: bool, reading: Reading)
    | FirstResolve(up: bool, now: Time)
    | ProviderStep(reply: Option<string>)
    | SecondStatus(up: bool, reading: Reading)
    | FinalResolve(up: bool, now: Time, later: Time)
    | ReleaseStep(accepted: bool)

  function ResolveFor(c: Codec, req: Request, connectors: Registry, e: Evidence, up: bool, now: Time): Snapshot {
    if up then Resolve(c, e, req.vertical, req.scope, req.digests, connectors, now, req.budget)
    else Snapshot(req.vertical, c.scopeId(req.vertical, req.scope), Ascending(Elements(req.digests)), [], Unavailable,
                  {StoreUnavailable})
  }

  /** The ledger and the phase after a step; a step out of turn changes nothing. */
  function StepOf(c: Codec, req: Request, connectors: Registry, db: Db, phase: Phase, ev: Event): (Db, Phase) {
    match (phase, ev)
    case (_, Other(op)) => (Apply(c, db, op).0, phase)
    case (Idle, ResolveStep(up, now)) => (db, Resolved(ResolveFor(c, req, connectors, db.evidence, up, now)))
    case (Resolved(snap), PlanStep(up, around, id, now, reading)) =>
      if !snap.MatchesScope(c, req.vertical, req.scope, req.digests) then (db, Refused)
      else if PlanBlockers(req, around, snap, now) != {} || !up then (db, Refused)
      else
        var key := Key(req.vertical, req.scope, id);
        var (after, outcome) := Register(c, db, key, IntelligencePlan, snap, reading);
        (after, if outcome.Status? && outcome.current then Registered(snap, key) else Refused)
    case (Registered(snap, key), FreshStep(now)) => (db, if snap.FreshAt(now) then Dated(snap, key) else Refused)
    case (Dated(snap, key), FirstStatus(up, reading)) =>
      if !up then (db, Refused)
      else
        var (after, outcome) := CheckStatus(c, db, key, reading, connectors);
        (after, if outcome.Status? && outcome.current then Cleared(snap, key) else Refused)
    case (Cleared(snap, key), FirstResolve(up, now)) =>
      var current := ResolveFor(c, req, connectors, db.evidence, up, now);
      (db, if c.snapshotId(current) == c.snapshotId(snap) then Dispatched(snap, key) else Refused)
    case (Dispatched(snap, key), ProviderStep(reply)) =>
      (db, if reply.Some? then Answered(snap, key, reply.value) else Refused)
    case (Answered(snap, key, reply), SecondStatus(up, reading)) =>
      if !up then (db, Refused)
      else
        var (after, outcome) := CheckStatus(c, db, key, reading, connectors);
        (after, if outcome.Status? && outcome.current then Confirmed(snap, key, reply) else Refused)
    case (Confirmed(snap, key, reply), FinalResolve(up, now, later)) =>
      var current := ResolveFor(c, req, connectors, db.evidence, up, now);
      (db, if c.snapshotId(current) == c.snapshotId(snap) && snap.FreshAt(later)
           then Settled(snap, key, reply) else Refused)
    case (Settled(snap, key, reply), ReleaseStep(accepted)) =>
      (db, if accepted then Released(snap, key, reply) else Refused)
    case _ => (db, phase)
  }

  function Next(c: Codec, req: Request, connectors: Registry, sys: System, ev: Event): System {
    var (db, phase) := StepOf(c, req, connectors, sys.db, sys.phase, ev);
    var n := sys.steps + 1;
    System(db, phase, n,
           if phase.Registered? && !sys.phase.Registered? then n else sys.registered,
           if phase.Confirmed? && !sys.phase.Confirmed? then n else sys.confirmed,
           if phase.Settled? && !sys.phase.Settled? then n else sys.settled)
  }

  /** The system after a sequence of events, from the empty ledger. */
  function After(c: Codec, req: Request, connectors: Registry, events: seq<Event>): System {
    if events == [] then System(EMPTY_DB, Idle, 0, 0, 0, 0)
    else Next(c, req, connectors, After(c, req, connectors, events[..|events| - 1]), events[|events| - 1])
  }

  /** The ledger after the first `i` events. */
  function DbAt(c: Codec, req: Request, connectors: Registry, events: seq<Event>, i: nat): Db
    requires i <= |events|
  {
    After(c, req, connectors, events[..i]).db
  }

  // ------------------------------------------------------------------- safety

  /** The record is, in full, the newest row of its payload, and the payload is not withdrawn. */
  ghost predicate Undisturbed(c: Codec, e: Evidence, v: string, s: string, r: Record) {
    var rows := Slice(e, v, s, r.payload);
    && !Withdrawn(e, v, s, r.payload)
    && IsNewest(rows, r.receiptId)
    && c.receiptId(rows[r.receiptId].basis) == r.receiptId
    && rows[r.receiptId].summary == r.summary
  }

  ghost predicate AllUndisturbed(c: Codec, e: Evidence, key: Key, snap: Snapshot) {
    forall i | 0 <= i < |snap.records| :: Undisturbed(c, e, key.vertical, key.scope, snap.records[i])
  }

  /** The summary digest of each record is that of its summary. */
  ghost predicate RecordsHashed(c: Codec, records: seq<Record>) {
    forall i | 0 <= i < |records| :: records[i].summaryId == c.summaryId(records[i].summary)
  }

  ghost predicate Hashed(c: Codec, snap: Snapshot) {
    RecordsHashed(c, snap.records)
  }

  /** The stored dependencies are those of the snapshot the row names. */
  ghost predicate DepsNamed(c: Codec, db: Db) {
    forall k, snap | k in db.assessments && db.assessments[k].snapshotId == c.snapshotId(snap) ::
      db.assessments[k].deps == DependenciesOf(snap.records)
  }

  ghost predicate Tracked(c: Codec, db: Db, key: Key, snap: Snapshot) {
    && Hashed(c, snap)
    && key in db.assessments
    && db.assessments[key].deps == DependenciesOf(snap.records)
  }

  lemma SupportedUndisturbed(c: Codec, db: Db, key: Key, snap: Snapshot)
    requires CollisionFree(c) && Sound(c, db) && Tracked(c, db, key, snap) && !db.assessments[key].invalidated
    ensures AllUndisturbed(c, db.evidence, key, snap)
  {
    var deps := db.assessments[key].deps;
    forall i | 0 <= i < |snap.records| ensures Undisturbed(c, db.evidence, key.vertical, key.scope, snap.records[i]) {
      assert Holds(c, db.evidence, key.vertical, key.scope, deps[i]);
    }
  }

  /** What holds of the system in every reachable state, apart from what it says about earlier states. */
  ghost predicate Consistent(c: Codec, req: Request, sys: System) {
    && Sound(c, sys.db) && DepsNamed(c, sys.db)
    && (sys.phase.Resolved? ==> Hashed(c, sys.phase.snap))
    && (Planned(sys.phase) ==>
          && sys.phase.key.vertical == req.vertical && sys.phase.key.scope == req.scope
          && Tracked(c, sys.db, sys.phase.key, sys.phase.snap)
          && sys.phase.snap.state == Complete
          && sys.phase.snap.requested == Ascending(Elements(req.digests)))
  }

  lemma {:induction false} GatherHashed(c: Codec, e: Evidence, v: string, s: string, ds: seq<Digest>,
                                        connectors: Registry, now: Time, budget: nat)
    ensures RecordsHashed(c, Gather(c, e, v, s, ds, connectors, now, budget).records)
  {
    if ds != [] {
      GatherHashed(c, e, v, s, ds[..|ds| - 1], connectors, now, budget);
      var before := Gather(c, e, v, s, ds[..|ds| - 1], connectors, now, budget).records;
      var after := Gather(c, e, v, s, ds, connectors, now, budget).records;
      var last := AdmitIn(c, e, v, s, ds[|ds| - 1], connectors, now, budget);
      assert after == before || (last.Some? && after == before + [last.value]);
    }
  }

  // ------------------------------------------------------ operations keep DepsNamed

  lemma InvalidateNamed(c: Codec, db: Db, v: string, s: string, d: Digest)
    requires DepsNamed(c, db)
    ensures DepsNamed(c, Invalidate(c, db, v, s, d))
  {
  }

  lemma {:induction false} WithdrawAllNamed(c: Codec, db: Db, v: string, s: string, ds: seq<Digest>, now: Time)
    requires DepsNamed(c, db)
    ensures DepsNamed(c, WithdrawAll(c, db, v, s, ds, now))
  {
    hide DepsNamed, Invalidate;
    if ds != [] {
      var mid := WithdrawAll(c, db, v, s, ds[..|ds| - 1], now);
      WithdrawAllNamed(c, db, v, s, ds[..|ds| - 1], now);
      var k := Key(v, s, ds[|ds| - 1]);
      var e := if k in mid.evidence.withdrawals then mid.evidence
               else mid.evidence.(withdrawals := mid.evidence.withdrawals[k := now]);
      EvidenceNamed(c, mid, e);
      InvalidateNamed(c, mid.(evidence := e), v, s, ds[|ds| - 1]);
    }
  }

  lemma EvidenceNamed(c: Codec, db: Db, e: Evidence)
    requires DepsNamed(c, db)
    ensures DepsNamed(c, db.(evidence := e))
  {
  }

  lemma CheckNamed(c: Codec, db: Db, k: Key, now: Time, connectors: Option<Registry>)
    requires DepsNamed(c, db)
    ensures DepsNamed(c, Check(c, db, k, now, connectors).0)
  {
  }

  lemma InsertedNamed(c: Codec, db: Db, k: Key, kind: Kind, snap: Snapshot, now: Time)
    requires CollisionFree(c) && DepsNamed(c, db)
    ensures DepsNamed(c, Inserted(c, db, k, kind, snap, now))
  {
  }

  lemma ApplyNamed(c: Codec, db: Db, op: Op)
    requires CollisionFree(c) && DepsNamed(c, db)
    ensures DepsNamed(c, Apply(c, db, op).0)
  {
    hide DepsNamed, Invalidate, Check, Inserted, WithdrawAll;
    match op
    case OpPut(receipt, summary) =>
      var b := receipt.basis;
      var e := db.evidence.(observations := db.evidence.observations[receipt.id := Row(b, summary)]);
      EvidenceNamed(c, db, e);
      InvalidateNamed(c, db.(evidence := e), b.vertical, b.scope, b.payload);
    case OpWithdraw(v, s, digests, reading) =>
      if reading.At? { WithdrawAllNamed(c, db, v, s, Ascending(Elements(digests)), reading.now); }
    case OpRegister(key, kind, snap, reading) =>
      if reading.At? {
        CheckNamed(c, db, key, reading.now, None);
        InsertedNamed(c, db, key, kind, snap, reading.now);
        CheckNamed(c, Inserted(c, db, key, kind, snap, reading.now), key, reading.now, None);
      }
    case OpStatus(key, reading, connectors) =>
      if reading.At? { CheckNamed(c, db, key, reading.now, Some(connectors)); }
  }

  /** The ledger operation a step performs, if any. */
  function OpOf(req: Request, connectors: Registry, phase: Phase, ev: Event): Option<Op> {
    match (phase, ev)
    case (_, Other(op)) => Some(op)
    case (Resolved(snap), PlanStep(up, around, id, now, reading)) =>
      Some(OpRegister(Key(req.vertical, req.scope, id), IntelligencePlan, snap, reading))
    case (Dated(snap, key), FirstStatus(up, reading)) => Some(OpStatus(key, reading, connectors))
    case (Answered(snap, key, reply), SecondStatus(up, reading)) => Some(OpStatus(key, reading, connectors))
    case _ => None
  }

  /** A step leaves the ledger alone or performs its operation on it. */
  lemma StepIsOperation(c: Codec, req: Request, connectors: Registry, db: Db, phase: Phase, ev: Event)
    ensures var op := OpOf(req, connectors, phase, ev);
            var (after, next) := StepOf(c, req, connectors, db, phase, ev);
            after == db || (op.Some? && after == Apply(c, db, op.value).0)
  {
    hide Register, CheckStatus, PlanBlockers, ResolveFor;
  }

  ghost predicate GenuineEvent(c: Codec, ev: Event) {
    ev.Other? ==> Genuine(c, ev.op)
  }

  /** A step keeps the ledger sound and only extends it. */
  lemma StepKeepsLedger(c: Codec, req: Request, connectors: Registry, db: Db, phase: Phase, ev: Event)
    requires CollisionFree(c) && Sound(c, db) && DepsNamed(c, db) && GenuineEvent(c, ev)
    ensures var after := StepOf(c, req, connectors, db, phase, ev).0;
            Sound(c, after) && DepsNamed(c, after) && Extends(db, after)
  {
    hide StepOf, Sound, DepsNamed, Extends, Apply;
    StepIsOperation(c, req, connectors, db, phase, ev);
    ExtendsReflexive(db);
    var op := OpOf(req, connectors, phase, ev);
    if op.Some? {
      ApplyKeeps(c, db, op.value);
      ApplyNamed(c, db, op.value);
      SoundIsLatched(c, db);
      ApplyExtends(c, db, op.value);
    }
  }

  lemma ExtendsReflexive(db: Db)
    ensures Extends(db, db)
  {
  }

  lemma SoundIsLatched(c: Codec, db: Db)
    requires Sound(c, db)
    ensures Latched(db)
  {
  }

  // ------------------------------------------------------------ the request's own view

  lemma ResolveForHashed(c: Codec, req: Request, connectors: Registry, e: Evidence, up: bool, now: Time)
    ensures var snap := ResolveFor(c, req, connectors, e, up, now);
            Hashed(c, snap) && snap.requested == Ascending(Elements(req.digests))
  {
    GatherHashed(c, e, req.vertical, req.scope, Ascending(Elements(req.digests)), connectors, now, req.budget);
  }

  /** A registration that reports CURRENT leaves a standing row recording the snapshot. */
  lemma RegisterTracks(c: Codec, db: Db, k: Key, kind: Kind, snap: Snapshot, r: Reading)
    requires CollisionFree(c) && Sound(c, db) && DepsNamed(c, db) && Hashed(c, snap)
    requires Register(c, db, k, kind, snap, r).1.Status?
    ensures Tracked(c, Register(c, db, k, kind, snap, r).0, k, snap) && snap.state == Complete
  {
    hide Checked, Unreadable;
    var op := OpRegister(k, kind, snap, r);
    assert Apply(c, db, op) == Register(c, db, k, kind, snap, r);
    ApplyNamed(c, db, op);
    StatusReflectsRow(c, db, op, k);
    RegisterNames(c, db, k, kind, snap, r);
  }

  lemma RegisterNames(c: Codec, db: Db, k: Key, kind: Kind, snap: Snapshot, r: Reading)
    requires Register(c, db, k, kind, snap, r).1.Status?
    ensures k in Register(c, db, k, kind, snap, r).0.assessments
    ensures Register(c, db, k, kind, snap, r).0.assessments[k].snapshotId == c.snapshotId(snap)
    ensures snap.state == Complete
  {
    hide Findings, Unreadable, Elements, InScope;
  }

  /** A plan stays the same plan until it is dropped. */
  lemma NextKeepsPlan(c: Codec, req: Request, connectors: Registry, sys: System, ev: Event)
    requires Planned(sys.phase) && Planned(Next(c, req, connectors, sys, ev).phase)
    ensures var next := Next(c, req, connectors, sys, ev);
            next.phase.key == sys.phase.key && next.phase.snap == sys.phase.snap
  {
    hide Apply, CheckStatus, ResolveFor;
  }

  lemma NextConsistent(c: Codec, req: Request, connectors: Registry, sys: System, ev: Event)
    requires CollisionFree(c) && Consistent(c, req, sys) && GenuineEvent(c, ev)
    ensures Consistent(c, req, Next(c, req, connectors, sys, ev))
    ensures Extends(sys.db, Next(c, req, connectors, sys, ev).db)
  {
    var next := Next(c, req, connectors, sys, ev);
    StepKeepsLedger(c, req, connectors, sys.db, sys.phase, ev);
    if Planned(sys.phase) {
      hide Sound, DepsNamed, Extends, Tracked, Hashed, CollisionFree, StepOf;
      if Planned(next.phase) { NextKeepsPlan(c, req, connectors, sys, ev); }
      NoWayBack(c, req, connectors, sys, ev);
    } else {
      NextBeforePlan(c, req, connectors, sys, ev);
    }
  }

  lemma NoWayBack(c: Codec, req: Request, connectors: Registry, sys: System, ev: Event)
    requires Planned(sys.phase)
    ensures !Next(c, req, connectors, sys, ev).phase.Resolved?
  {
    hide Apply, CheckStatus, ResolveFor;
  }

  lemma NextBeforePlan(c: Codec, req: Request, connectors: Registry, sys: System, ev: Event)
    requires CollisionFree(c) && Consistent(c, req, sys) && !Planned(sys.phase)
    ensures var next := Next(c, req, connectors, sys, ev);
            && (next.phase.Resolved? ==> Hashed(c, next.phase.snap))
            && (Planned(next.phase) ==>
                  && next.phase.key.vertical == req.vertical && next.phase.key.scope == req.scope
                  && Tracked(c, next.db, next.phase.key, next.phase.snap)
                  && next.phase.snap.state == Complete
                  && next.phase.snap.requested == Ascending(Elements(req.digests)))
  {
    var next := Next(c, req, connectors, sys, ev);
    if ev.ResolveStep? {
      ResolveForHashed(c, req, connectors, sys.db.evidence, ev.up, ev.now);
    } else if ev.PlanStep? && sys.phase.Resolved? {
      var key := Key(req.vertical, req.scope, ev.id);
      if Register(c, sys.db, key, IntelligencePlan, sys.phase.snap, ev.reading).1.Status? {
        RegisterTracks(c, sys.db, key, IntelligencePlan, sys.phase.snap, ev.reading);
      }
    }
    hide Sound, DepsNamed, Tracked, Hashed, Apply, Register, CheckStatus, ResolveFor, CollisionFree, PlanBlockers;
  }

  /** Every reachable state is consistent. */
  lemma {:induction false} AfterConsistent(c: Codec, req: Request, connectors: Registry, events: seq<Event>)
    requires CollisionFree(c) && forall i | 0 <= i < |events| :: GenuineEvent(c, events[i])
    ensures Consistent(c, req, After(c, req, connectors, events))
    ensures After(c, req, connectors, events).steps == |events|
  {
    if events != [] {
      AfterConsistent(c, req, connectors, events[..|events| - 1]);
      NextConsistent(c, req, connectors, After(c, req, connectors, events[..|events| - 1]), events[|events| - 1]);
    }
  }

  /** Ledger states along one run only extend each other. */
  lemma {:induction false} DbExtends(c: Codec, req: Request, connectors: Registry, events: seq<Event>, i: nat, j: nat)
    requires CollisionFree(c) && forall n | 0 <= n < |events| :: GenuineEvent(c, events[n])
    requires i <= j <= |events|
    ensures Extends(DbAt(c, req, connectors, events, i), DbAt(c, req, connectors, events, j))
    decreases j
  {
    hide Extends, Consistent, Next;
    if i == j {
      ExtendsReflexive(DbAt(c, req, connectors, events, i));
    } else {
      DbExtends(c, req, connectors, events, i, j - 1);
      assert events[..j][..j - 1] == events[..j - 1];
      AfterConsistent(c, req, connectors, events[..j - 1]);
      NextConsistent(c, req, connectors, After(c, req, connectors, events[..j - 1]), events[j - 1]);
      ExtendsTransitive(DbAt(c, req, connectors, events, i), DbAt(c, req, connectors, events, j - 1),
                        DbAt(c, req, connectors, events, j));
    }
  }

  /** From registration to moment `n`, nothing the snapshot cites changed. */
  ghost predicate UndisturbedBetween(c: Codec, req: Request, connectors: Registry, events: seq<Event>, m: nat, n: nat,
                                     key: Key, snap: Snapshot)
    requires n <= |events|
  {
    forall i | m <= i <= n :: AllUndisturbed(c, DbAt(c, req, connectors, events, i).evidence, key, snap)
  }

  /** After the second check: undisturbed from registration to the check. */
  ghost predicate RemembersCheck(c: Codec, req: Request, connectors: Registry, events: seq<Event>, sys: System)
    requires Planned(sys.phase)
  {
    && sys.registered <= sys.confirmed <= |events|
    && UndisturbedBetween(c, req, connectors, events, sys.registered, sys.confirmed, sys.phase.key, sys.phase.snap)
  }

  /** What the state after `events` says about the states before it. */
  ghost predicate Remembers(c: Codec, req: Request, connectors: Registry, events: seq<Event>) {
    var sys := After(c, req, connectors, events);
    Planned(sys.phase) && sys.phase.key in sys.db.assessments ==>
      && 0 < sys.registered <= |events|
      && (PastCheck(sys.phase) ==> RemembersCheck(c, req, connectors, events, sys))
      && (!PastCheck(sys.phase) && !sys.db.assessments[sys.phase.key].invalidated ==>
            UndisturbedBetween(c, req, connectors, events, sys.registered, |events|, sys.phase.key, sys.phase.snap))
  }

  lemma UndisturbedPrefix(c: Codec, req: Request, connectors: Registry, events: seq<Event>, m: nat, n: nat, key: Key,
                          snap: Snapshot)
    requires events != [] && n < |events|
    requires UndisturbedBetween(c, req, connectors, events[..|events| - 1], m, n, key, snap)
    ensures UndisturbedBetween(c, req, connectors, events, m, n, key, snap)
  {
    hide AllUndisturbed;
    forall i | m <= i <= n ensures AllUndisturbed(c, DbAt(c, req, connectors, events, i).evidence, key, snap) {
      assert events[..|events| - 1][..i] == events[..i];
      assert AllUndisturbed(c, DbAt(c, req, connectors, events[..|events| - 1], i).evidence, key, snap);
    }
  }

  /** Extending the undisturbed stretch by the present moment, while the row stands. */
  lemma UndisturbedNow(c: Codec, req: Request, connectors: Registry, events: seq<Event>, m: nat, key: Key,
                       snap: Snapshot)
    requires CollisionFree(c) && events != []
    requires m == |events| || UndisturbedBetween(c, req, connectors, events[..|events| - 1], m, |events| - 1, key, snap)
    requires var db := After(c, req, connectors, events).db;
             Sound(c, db) && Tracked(c, db, key, snap) && !db.assessments[key].invalidated
    ensures UndisturbedBetween(c, req, connectors, events, m, |events|, key, snap)
  {
    SupportedUndisturbed(c, After(c, req, connectors, events).db, key, snap);
    hide AllUndisturbed, Sound, Tracked;
    assert events[..|events|] == events;
    if m < |events| {
      UndisturbedPrefix(c, req, connectors, events, m, |events| - 1, key, snap);
    }
  }

  lemma StatusCurrentStands(c: Codec, db: Db, k: Key, r: Reading, connectors: Registry)
    requires Sound(c, db) && CheckStatus(c, db, k, r, connectors).1.Status?
             && CheckStatus(c, db, k, r, connectors).1.current
    ensures k in CheckStatus(c, db, k, r, connectors).0.assessments
    ensures !CheckStatus(c, db, k, r, connectors).0.assessments[k].invalidated
  {
    hide Findings, Unreadable;
  }

  /** Case by case: what the state remembers after one more event. */
  lemma RemembersRegistration(c: Codec, req: Request, connectors: Registry, events: seq<Event>)
    requires CollisionFree(c) && forall i | 0 <= i < |events| :: GenuineEvent(c, events[i])
    requires events != []
    requires After(c, req, connectors, events[..|events| - 1]).phase.Resolved?
    requires After(c, req, connectors, events).phase.Registered?
    ensures Remembers(c, req, connectors, events)
  {
    var init := events[..|events| - 1];
    var before, sys := After(c, req, connectors, init), After(c, req, connectors, events);
    AfterConsistent(c, req, connectors, init);
    AfterConsistent(c, req, connectors, events);
    hide Consistent, Sound, Tracked, UndisturbedBetween, Register, PlanBlockers;
    assert sys.registered == |events|;
    if !sys.db.assessments[sys.phase.key].invalidated {
      UndisturbedNow(c, req, connectors, events, |events|, sys.phase.key, sys.phase.snap);
    }
  }

  /** One event before the second check: the plan is the same, and passing the check means the row stands. */
  lemma NextBeforeCheck(c: Codec, req: Request, connectors: Registry, sys: System, ev: Event)
    requires Sound(c, sys.db) && Planned(sys.phase) && !PastCheck(sys.phase)
    requires Planned(Next(c, req, connectors, sys, ev).phase)
    ensures var next := Next(c, req, connectors, sys, ev);
            && next.phase.key == sys.phase.key && next.phase.snap == sys.phase.snap && next.registered == sys.registered
            && !next.phase.Settled? && !next.phase.Released?
            && (PastCheck(next.phase) ==>
                  next.confirmed == next.steps && next.phase.key in next.db.assessments
                  && !next.db.assessments[next.phase.key].invalidated)
  {
    if sys.phase.Answered? && ev.SecondStatus? && Next(c, req, connectors, sys, ev).phase.Confirmed? {
      StatusCurrentStands(c, sys.db, sys.phase.key, ev.reading, connectors);
    }
    hide Sound, Apply, CheckStatus, ResolveFor;
  }

  /** One event after it: the plan and the confirmation stay. */
  lemma NextAfterCheck(c: Codec, req: Request, connectors: Registry, sys: System, ev: Event)
    requires PastCheck(sys.phase) && Planned(Next(c, req, connectors, sys, ev).phase)
    ensures var next := Next(c, req, connectors, sys, ev);
            && PastCheck(next.phase)
            && next.phase.key == sys.phase.key && next.phase.snap == sys.phase.snap
            && next.registered == sys.registered && next.confirmed == sys.confirmed
  {
    hide Apply, ResolveFor, CheckStatus;
  }

  lemma RemembersBeforeCheck(c: Codec, req: Request, connectors: Registry, events: seq<Event>)
    requires CollisionFree(c) && forall i | 0 <= i < |events| :: GenuineEvent(c, events[i])
    requires events != [] && Remembers(c, req, connectors, events[..|events| - 1])
    requires var p := After(c, req, connectors, events[..|events| - 1]).phase; Planned(p) && !PastCheck(p)
    requires Planned(After(c, req, connectors, events).phase)
    ensures Remembers(c, req, connectors, events)
  {
    var init, ev := events[..|events| - 1], events[|events| - 1];
    var before, sys := After(c, req, connectors, init), After(c, req, connectors, events);
    AfterConsistent(c, req, connectors, init);
    AfterConsistent(c, req, connectors, events);
    NextConsistent(c, req, connectors, before, ev);
    NextBeforeCheck(c, req, connectors, before, ev);
    hide Sound, Tracked, UndisturbedBetween, Next;
    if !sys.db.assessments[sys.phase.key].invalidated {
      UndisturbedNow(c, req, connectors, events, sys.registered, sys.phase.key, sys.phase.snap);
    }
  }

  lemma RemembersAfterCheck(c: Codec, req: Request, connectors: Registry, events: seq<Event>)
    requires CollisionFree(c) && forall i | 0 <= i < |events| :: GenuineEvent(c, events[i])
    requires events != [] && Remembers(c, req, connectors, events[..|events| - 1])
    requires PastCheck(After(c, req, connectors, events[..|events| - 1]).phase)
    requires Planned(After(c, req, connectors, events).phase)
    ensures Remembers(c, req, connectors, events)
  {
    var init, ev := events[..|events| - 1], events[|events| - 1];
    var before, sys := After(c, req, connectors, init), After(c, req, connectors, events);
    AfterConsistent(c, req, connectors, init);
    NextAfterCheck(c, req, connectors, before, ev);
    assert RemembersCheck(c, req, connectors, init, before);
    hide After, Sound, Tracked, UndisturbedBetween, Next, CollisionFree;
    UndisturbedPrefix(c, req, connectors, events, before.registered, before.confirmed, sys.phase.key, sys.phase.snap);
  }

  lemma {:induction false} AfterRemembers(c: Codec, req: Request, connectors: Registry, events: seq<Event>)
    requires CollisionFree(c) && forall i | 0 <= i < |events| :: GenuineEvent(c, events[i])
    ensures Remembers(c, req, connectors, events)
  {
    if events == [] {
      RemembersNothing(c, req, connectors, events);
    } else {
      var init := events[..|events| - 1];
      AfterRemembers(c, req, connectors, init);
      var p, q := After(c, req, connectors, init).phase, After(c, req, connectors, events).phase;
      NextRegisters(c, req, connectors, After(c, req, connectors, init), events[|events| - 1]);
      hide Remembers, Next, GenuineEvent, CollisionFree;
      if !Planned(q) {
        RemembersNothing(c, req, connectors, events);
      } else if PastCheck(p) {
        RemembersAfterCheck(c, req, connectors, events);
      } else if Planned(p) {
        RemembersBeforeCheck(c, req, connectors, events);
      } else {
        RemembersRegistration(c, req, connectors, events);
      }
    }
  }

  /** The only way into a plan is registration. */
  lemma NextRegisters(c: Codec, req: Request, connectors: Registry, sys: System, ev: Event)
    ensures !Planned(sys.phase) && Planned(Next(c, req, connectors, sys, ev).phase) ==>
              sys.phase.Resolved? && Next(c, req, connectors, sys, ev).phase.Registered?
  {
    hide Apply, Register, PlanBlockers, ResolveFor;
  }

  lemma RemembersNothing(c: Codec, req: Request, connectors: Registry, events: seq<Event>)
    requires !Planned(After(c, req, connectors, events).phase)
    ensures Remembers(c, req, connectors, events)
  {
  }

  // ---------------------------------------------------------------- the gates passed

  predicate PastSettlement(p: Phase) { p.Settled? || p.Released? }

  /** The `n`-th event planned the request: all gates open at its time, and the registration came back CURRENT. */
  ghost predicate PlannedBy(c: Codec, req: Request, connectors: Registry, events: seq<Event>, n: nat, key: Key,
                            snap: Snapshot)
  {
    && 0 < n <= |events|
    && var db, ev := DbAt(c, req, connectors, events, n - 1), events[n - 1];
      && ev.PlanStep? && ev.up && key == Key(req.vertical, req.scope, ev.id)
      && InScopeOf(c, req, snap) && GatesOpen(req, ev.around, snap, ev.now)
      && var (after, outcome) := Register(c, db, key, IntelligencePlan, snap, ev.reading);
        outcome.Status? && outcome.current && after == DbAt(c, req, connectors, events, n)
  }

  /** The `n`-th event was the second status check, and it came back CURRENT. */
  ghost predicate ConfirmedBy(c: Codec, req: Request, connectors: Registry, events: seq<Event>, n: nat, key: Key) {
    && 0 < n <= |events|
    && var db, ev := DbAt(c, req, connectors, events, n - 1), events[n - 1];
      && ev.SecondStatus? && ev.up
      && var (after, outcome) := CheckStatus(c, db, key, ev.reading, connectors);
        outcome.Status? && outcome.current && after == DbAt(c, req, connectors, events, n)
  }

  /** At its time the `n`-th event resolved to the very snapshot, which was fresh at the reading that followed. */
  ghost predicate SettledBy(c: Codec, req: Request, connectors: Registry, events: seq<Event>, n: nat, snap: Snapshot) {
    && 0 < n <= |events|
    && var db, ev := DbAt(c, req, connectors, events, n - 1), events[n - 1];
      && ev.FinalResolve? && ev.up && DbAt(c, req, connectors, events, n) == db
      && Resolve(c, db.evidence, req.vertical, req.scope, req.digests, connectors, ev.now, req.budget) == snap
      && snap.state == Complete && AllFresh(snap, ev.later)
  }

  /** The counters of the system point to the events that passed the gates. */
  ghost predicate GatesPassed(c: Codec, req: Request, connectors: Registry, events: seq<Event>) {
    var sys := After(c, req, connectors, events);
    && sys.steps == |events|
    && (Planned(sys.phase) ==> PlannedBy(c, req, connectors, events, sys.registered, sys.phase.key, sys.phase.snap))
    && (PastCheck(sys.phase) ==>
          sys.registered <= sys.confirmed && ConfirmedBy(c, req, connectors, events, sys.confirmed, sys.phase.key))
    && (PastSettlement(sys.phase) ==>
          sys.confirmed <= sys.settled && SettledBy(c, req, connectors, events, sys.settled, sys.phase.snap))
  }

  lemma GatesPersist(c: Codec, req: Request, connectors: Registry, events: seq<Event>, n: nat, key: Key, snap: Snapshot)
    requires events != []
    ensures var init := events[..|events| - 1];
      && (PlannedBy(c, req, connectors, init, n, key, snap) ==> PlannedBy(c, req, connectors, events, n, key, snap))
      && (ConfirmedBy(c, req, connectors, init, n, key) ==> ConfirmedBy(c, req, connectors, events, n, key))
      && (SettledBy(c, req, connectors, init, n, snap) ==> SettledBy(c, req, connectors, events, n, snap))
  {
    hide After, Register, CheckStatus, Resolve, PlanBlockers;
    var init := events[..|events| - 1];
    if 0 < n < |events| {
      assert init[..n] == events[..n] && init[..n - 1] == events[..n - 1] && init[n - 1] == events[n - 1];
    }
  }

  /** Entering a plan. */
  lemma GatePlan(c: Codec, req: Request, connectors: Registry, sys: System, ev: Event)
    requires !Planned(sys.phase) && Planned(Next(c, req, connectors, sys, ev).phase)
    ensures var next := Next(c, req, connectors, sys, ev);
      && sys.phase.Resolved? && ev.PlanStep? && ev.up && !PastCheck(next.phase) && next.registered == next.steps
      && next.phase.snap == sys.phase.snap && next.phase.key == Key(req.vertical, req.scope, ev.id)
      && InScopeOf(c, req, next.phase.snap) && GatesOpen(req, ev.around, next.phase.snap, ev.now)
      && var (after, outcome) := Register(c, sys.db, next.phase.key, IntelligencePlan, next.phase.snap, ev.reading);
        outcome.Status? && outcome.current && after == next.db
  {
    hide Apply, Register, PlanBlockers, GatesOpen, ResolveFor, CheckStatus;
    GatesOpenExactly(req, ev.around, sys.phase.snap, ev.now);
  }

  /** Passing the second status check. */
  lemma GateCheck(c: Codec, req: Request, connectors: Registry, sys: System, ev: Event)
    requires !PastCheck(sys.phase) && PastCheck(Next(c, req, connectors, sys, ev).phase)
    ensures var next := Next(c, req, connectors, sys, ev);
      && sys.phase.Answered? && ev.SecondStatus? && ev.up && next.confirmed == next.steps
      && !PastSettlement(next.phase)
      && var (after, outcome) := CheckStatus(c, sys.db, next.phase.key, ev.reading, connectors);
        outcome.Status? && outcome.current && after == next.db
  {
    hide Apply, Register, PlanBlockers, ResolveFor, CheckStatus;
  }

  /** Passing the last resolution; an unavailable store cannot yield a complete snapshot. */
  lemma GateSettle(c: Codec, req: Request, connectors: Registry, sys: System, ev: Event)
    requires CollisionFree(c) && Planned(sys.phase) && sys.phase.snap.state == Complete
    requires !PastSettlement(sys.phase) && PastSettlement(Next(c, req, connectors, sys, ev).phase)
    ensures var next := Next(c, req, connectors, sys, ev);
      && sys.phase.Confirmed? && ev.FinalResolve? && ev.up && next.settled == next.steps && next.db == sys.db
      && next.phase.snap == sys.phase.snap
      && Resolve(c, sys.db.evidence, req.vertical, req.scope, req.digests, connectors, ev.now, req.budget)
         == next.phase.snap
      && next.phase.snap.state == Complete && AllFresh(next.phase.snap, ev.later)
  {
    hide Apply, Register, PlanBlockers, Resolve, CheckStatus;
    FreshExactly(sys.phase.snap, ev.later);
    assert ev.FinalResolve?;
    var current := ResolveFor(c, req, connectors, sys.db.evidence, ev.up, ev.now);
    assert c.snapshotId(current) == c.snapshotId(sys.phase.snap);
    assert current == sys.phase.snap;
  }

  /** Between the gates the plan and the counters of the gates already passed stay. */
  lemma GatesKept(c: Codec, req: Request, connectors: Registry, sys: System, ev: Event)
    requires Planned(sys.phase) && Planned(Next(c, req, connectors, sys, ev).phase)
    ensures var next := Next(c, req, connectors, sys, ev);
      && next.phase.key == sys.phase.key && next.phase.snap == sys.phase.snap && next.registered == sys.registered
      && (PastCheck(sys.phase) ==> PastCheck(next.phase) && next.confirmed == sys.confirmed)
      && (PastSettlement(sys.phase) ==> PastSettlement(next.phase) && next.settled == sys.settled)
      && (!PastCheck(sys.phase) ==> !PastSettlement(next.phase))
  {
    hide Apply, Register, PlanBlockers, ResolveFor, CheckStatus;
  }

  /** The system before and after the last event. */
  lemma LastStep(c: Codec, req: Request, connectors: Registry, events: seq<Event>)
    requires events != []
    ensures var n := |events|;
      && After(c, req, connectors, events)
        == Next(c, req, connectors, After(c, req, connectors, events[..n - 1]), events[n - 1])
      && DbAt(c, req, connectors, events, n) == After(c, req, connectors, events).db
      && DbAt(c, req, connectors, events, n - 1) == After(c, req, connectors, events[..n - 1]).db
      && After(c, req, connectors, events).steps == After(c, req, connectors, events[..n - 1]).steps + 1
  {
    hide StepOf;
    assert events[..|events|] == events;
  }

  lemma EntersPlan(c: Codec, req: Request, connectors: Registry, events: seq<Event>)
    requires events != [] && After(c, req, connectors, events).steps == |events|
    requires !Planned(After(c, req, connectors, events[..|events| - 1]).phase)
    requires Planned(After(c, req, connectors, events).phase)
    ensures var sys := After(c, req, connectors, events);
      !PastCheck(sys.phase) && PlannedBy(c, req, connectors, events, sys.registered, sys.phase.key, sys.phase.snap)
  {
    hide After, Next, Register, PlanBlockers, DbAt;
    LastStep(c, req, connectors, events);
    GatePlan(c, req, connectors, After(c, req, connectors, events[..|events| - 1]), events[|events| - 1]);
  }

  lemma EntersCheck(c: Codec, req: Request, connectors: Registry, events: seq<Event>)
    requires events != [] && After(c, req, connectors, events).steps == |events|
    requires !PastCheck(After(c, req, connectors, events[..|events| - 1]).phase)
    requires PastCheck(After(c, req, connectors, events).phase)
    ensures var sys := After(c, req, connectors, events);
      && sys.confirmed == |events| && !PastSettlement(sys.phase)
      && ConfirmedBy(c, req, connectors, events, sys.confirmed, sys.phase.key)
  {
    hide After, Next, CheckStatus, DbAt;
    LastStep(c, req, connectors, events);
    GateCheck(c, req, connectors, After(c, req, connectors, events[..|events| - 1]), events[|events| - 1]);
  }

  lemma EntersSettlement(c: Codec, req: Request, connectors: Registry, events: seq<Event>)
    requires CollisionFree(c) && events != [] && After(c, req, connectors, events).steps == |events|
    requires var before := After(c, req, connectors, events[..|events| - 1]).phase;
      Planned(before) && before.snap.state == Complete && !PastSettlement(before)
    requires PastSettlement(After(c, req, connectors, events).phase)
    ensures var sys := After(c, req, connectors, events);
      sys.settled == |events| && SettledBy(c, req, connectors, events, sys.settled, sys.phase.snap)
  {
    hide CollisionFree, After, Next, Resolve, DbAt;
    LastStep(c, req, connectors, events);
    GateSettle(c, req, connectors, After(c, req, connectors, events[..|events| - 1]), events[|events| - 1]);
  }

  lemma GatesNow(c: Codec, req: Request, connectors: Registry, events: seq<Event>)
    requires CollisionFree(c) && events != [] && GatesPassed(c, req, connectors, events[..|events| - 1])
    requires Planned(After(c, req, connectors, events).phase)
    requires var before := After(c, req, connectors, events[..|events| - 1]).phase;
      Planned(before) ==> before.snap.state == Complete
    ensures GatesPassed(c, req, connectors, events)
  {
    hide CollisionFree, After, Next, PlannedBy, ConfirmedBy, SettledBy, DbAt;
    var before, sys := After(c, req, connectors, events[..|events| - 1]), After(c, req, connectors, events);
    LastStep(c, req, connectors, events);
    if !Planned(before.phase) {
      EntersPlan(c, req, connectors, events);
    } else {
      GatesKept(c, req, connectors, before, events[|events| - 1]);
      GatesPersist(c, req, connectors, events, before.registered, sys.phase.key, sys.phase.snap);
      GatesPersist(c, req, connectors, events, before.confirmed, sys.phase.key, sys.phase.snap);
      GatesPersist(c, req, connectors, events, before.settled, sys.phase.key, sys.phase.snap);
      RegisteredEarlier(c, req, connectors, events, before);
      if PastCheck(sys.phase) && !PastCheck(before.phase) { EntersCheck(c, req, connectors, events); }
      if PastSettlement(sys.phase) && !PastSettlement(before.phase) { EntersSettlement(c, req, connectors, events); }
    }
  }

  lemma RegisteredEarlier(c: Codec, req: Request, connectors: Registry, events: seq<Event>, before: System)
    requires events != [] && before == After(c, req, connectors, events[..|events| - 1])
    requires GatesPassed(c, req, connectors, events[..|events| - 1]) && Planned(before.phase)
    ensures before.registered < |events| && (PastCheck(before.phase) ==> before.confirmed < |events|)
  {
    hide After, Register, PlanBlockers, CheckStatus, Resolve, DbAt;
  }

  /** In every run the counters point to the events that passed the gates. */
  lemma {:induction false} GatesRecorded(c: Codec, req: Request, connectors: Registry, events: seq<Event>)
    requires CollisionFree(c) && forall i | 0 <= i < |events| :: GenuineEvent(c, events[i])
    ensures GatesPassed(c, req, connectors, events)
  {
    if events != [] {
      var init := events[..|events| - 1];
      GatesRecorded(c, req, connectors, init);
      AfterConsistent(c, req, connectors, init);
      if Planned(After(c, req, connectors, events).phase) {
        GatesNow(c, req, connectors, events);
      }
    }
  }

  /** A payload withdrawn at some moment cannot be resolved at a later one. */
  lemma NeverWithdrawn(c: Codec, req: Request, connectors: Registry, events: seq<Event>, n: nat, snap: Snapshot, i: nat,
                       j: nat)
    requires CollisionFree(c) && forall k | 0 <= k < |events| :: GenuineEvent(c, events[k])
    requires SettledBy(c, req, connectors, events, n, snap) && snap.state == Complete
    requires i <= n && j < |snap.requested|
    ensures !Withdrawn(DbAt(c, req, connectors, events, i).evidence, req.vertical, req.scope, snap.requested[j])
  {
    hide After, Resolve, CollisionFree, GenuineEvent, DbAt;
    SettledNotWithdrawn(c, req, connectors, DbAt(c, req, connectors, events, n).evidence, snap, events[n - 1].now, j);
    DbExtends(c, req, connectors, events, i, n);
  }

  lemma ReleasedPhase(c: Codec, req: Request, connectors: Registry, events: seq<Event>)
    requires Consistent(c, req, After(c, req, connectors, events)) && Remembers(c, req, connectors, events)
    requires GatesPassed(c, req, connectors, events) && After(c, req, connectors, events).phase.Released?
    ensures var sys := After(c, req, connectors, events);
            var snap, key := sys.phase.snap, sys.phase.key;
            && sys.registered <= sys.confirmed <= sys.settled <= |events|
            && key.vertical == req.vertical && key.scope == req.scope
            && snap.state == Complete && snap.requested == Ascending(Elements(req.digests))
            && PlannedBy(c, req, connectors, events, sys.registered, key, snap)
            && ConfirmedBy(c, req, connectors, events, sys.confirmed, key)
            && SettledBy(c, req, connectors, events, sys.settled, snap)
            && UndisturbedBetween(c, req, connectors, events, sys.registered, sys.confirmed, key, snap)
  {
    hide After, Sound, DepsNamed, Hashed, PlannedBy, ConfirmedBy, UndisturbedBetween, DbAt, Resolve;
  }

  /**
   Whatever other requests do in between, output is released only if the request cites as many distinct
   payloads as its vertical asks for and there are moments registration <= confirmation <= settlement such
   that: the registering event found every gate open, fresh evidence included, and the row CURRENT; the
   confirming event was the status check after the reply and found it CURRENT; at every moment from
   registration to confirmation each cited record was, in full, the newest row of its payload (so it was not
   replaced, not even by a row that was itself replaced later); at every moment up to settlement no cited
   payload was withdrawn; and the settling event resolved the references, at the time it read, to the very
   snapshot the output was produced from, which was fresh at the reading after that.
   */
  lemma ReleaseRestsOnUndisturbedEvidence(c: Codec, req: Request, connectors: Registry, events: seq<Event>)
    requires CollisionFree(c) && forall i | 0 <= i < |events| :: GenuineEvent(c, events[i])
    requires After(c, req, connectors, events).phase.Released?
    ensures var sys := After(c, req, connectors, events);
            var snap, key := sys.phase.snap, sys.phase.key;
            && sys.registered <= sys.confirmed <= sys.settled <= |events|
            && key.vertical == req.vertical && key.scope == req.scope
            && snap.state == Complete && snap.requested == Ascending(Elements(req.digests))
            && |Elements(req.digests)| >= req.minimumEvidence
            && PlannedBy(c, req, connectors, events, sys.registered, key, snap)
            && ConfirmedBy(c, req, connectors, events, sys.confirmed, key)
            && SettledBy(c, req, connectors, events, sys.settled, snap)
            && UndisturbedBetween(c, req, connectors, events, sys.registered, sys.confirmed, key, snap)
            && (forall i, j | 0 <= i <= sys.settled && 0 <= j < |snap.requested| ::
                  !Withdrawn(DbAt(c, req, connectors, events, i).evidence, req.vertical, req.scope, snap.requested[j]))
  {
    AfterConsistent(c, req, connectors, events);
    AfterRemembers(c, req, connectors, events);
    GatesRecorded(c, req, connectors, events);
    ReleasedPhase(c, req, connectors, events);
    EnoughReferences(c, req, connectors, events);
    hide *;
    var sys := After(c, req, connectors, events);
    var snap := sys.phase.snap;
    forall i, j | 0 <= i <= sys.settled && 0 <= j < |snap.requested|
      ensures !Withdrawn(DbAt(c, req, connectors, events, i).evidence, req.vertical, req.scope, snap.requested[j])
    {
      NeverWithdrawn(c, req, connectors, events, sys.settled, snap, i, j);
    }
  }

  lemma CitedPayloads(snap: Snapshot)
    ensures Cited(snap) == Elements(Payloads(DependenciesOf(snap.records)))
  {
    var payloads := Payloads(DependenciesOf(snap.records));
    forall d ensures d in Cited(snap) <==> d in payloads {
      if d in payloads {
        var i :| 0 <= i < |payloads| && payloads[i] == d;
        assert snap.records[i].payload == d;
      }
      if d in Cited(snap) {
        var i :| 0 <= i < |snap.records| && snap.records[i].payload == d;
        assert payloads[i] == d;
      }
    }
  }

  /** A complete snapshot cites exactly the references that were asked for. */
  lemma CitedAreReferences(c: Codec, e: Evidence, v: string, s: string, digests: seq<Digest>, connectors: Registry,
                           now: Time, budget: nat)
    requires CollisionFree(c) && Resolve(c, e, v, s, digests, connectors, now, budget).state == Complete
    ensures Cited(Resolve(c, e, v, s, digests, connectors, now, budget)) == Elements(digests)
  {
    hide CollisionFree, Cited, Payloads, DependenciesOf, Gather;
    RequestedIsPayloads(c, e, v, s, digests, connectors, now, budget);
    CitedPayloads(Resolve(c, e, v, s, digests, connectors, now, budget));
  }

  lemma EnoughReferences(c: Codec, req: Request, connectors: Registry, events: seq<Event>)
    requires CollisionFree(c) && GatesPassed(c, req, connectors, events)
    requires After(c, req, connectors, events).phase.Released?
    ensures |Elements(req.digests)| >= req.minimumEvidence
  {
    hide CollisionFree, Resolve, After, Register, Cited, Elements, CheckStatus;
    var n := After(c, req, connectors, events).settled;
    var db, ev := DbAt(c, req, connectors, events, n - 1), events[n - 1];
    CitedAreReferences(c, db.evidence, req.vertical, req.scope, req.digests, connectors, ev.now, req.budget);
  }

  lemma SettledNotWithdrawn(c: Codec, req: Request, connectors: Registry, e: Evidence, snap: Snapshot, now: Time,
                            j: nat)
    requires Resolve(c, e, req.vertical, req.scope, req.digests, connectors, now, req.budget) == snap
    requires snap.state == Complete && j < |snap.requested|
    ensures !Withdrawn(e, req.vertical, req.scope, snap.requested[j])
  {
    CompleteIsExact(c, e, req.vertical, req.scope, req.digests, connectors, now, req.budget);
    assert AdmitIn(c, e, req.vertical, req.scope, snap.requested[j], connectors, now, req.budget)
           == Some(snap.records[j]);
  }
}
