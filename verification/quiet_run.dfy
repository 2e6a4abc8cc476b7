/**
 The converse of safety: a request that nobody disturbs is not refused. Evidence that resolves, stays
 fresh, and is checked by a clock that never runs backwards passes every check of the invocation, the
 second, independent admission check included.
 */
module QuietRun {
  import opened Prelude
  import opened Ledger
  import opened LedgerSafety
  import opened Admission
  import opened Invocation

  /** Both admission checks accept the snapshot against this evidence at this time. */
  ghost predicate Accepts(c: Codec, req: Request, connectors: Registry, e: Evidence, snap: Snapshot, now: Time) {
    var deps := DependenciesOf(snap.records);
    && snap.state == Complete && snap.FreshAt(now) && snap.blockers == {}
    && snap.MatchesScope(c, req.vertical, req.scope, req.digests)
    && snap.requested != [] && Ascending(Elements(snap.requested)) == snap.requested
    && Resolve(c, e, req.vertical, req.scope, req.digests, connectors, now, req.budget) == snap
    && DependencyChanges(c, e, req.vertical, req.scope, deps, now) == []
    && Resolve(c, e, req.vertical, req.scope, Payloads(deps), connectors, now, DEFAULT_BUDGET) == snap
    && 0 < |deps| <= |req.digests|
  }

  lemma AdmittedLater(c: Codec, e: Evidence, v: string, s: string, d: Digest, connectors: Registry, now0: Time,
                      budget: nat, now: Time, r: Record)
    requires AdmitIn(c, e, v, s, d, connectors, now0, budget) == Some(r) && r.observedAt <= now < r.expiresAt
    ensures AdmitIn(c, e, v, s, d, connectors, now, budget) == Some(r)
  {
  }

  lemma FreshAllAdmitted(c: Codec, e: Evidence, v: string, s: string, digests: seq<Digest>, connectors: Registry,
                         now0: Time, budget: nat, now: Time)
    requires var snap := Resolve(c, e, v, s, digests, connectors, now0, budget);
             snap.state == Complete && snap.FreshAt(now)
    ensures var snap := Resolve(c, e, v, s, digests, connectors, now0, budget);
            AllAdmitted(c, e, v, s, snap.requested, connectors, now, budget, snap.records)
  {
    var snap := Resolve(c, e, v, s, digests, connectors, now0, budget);
    CompleteIsExact(c, e, v, s, digests, connectors, now0, budget);
    hide Resolve, AdmitIn;
    forall i | 0 <= i < |snap.requested|
      ensures AdmitIn(c, e, v, s, snap.requested[i], connectors, now, budget) == Some(snap.records[i])
    {
      AdmittedLater(c, e, v, s, snap.requested[i], connectors, now0, budget, now, snap.records[i]);
    }
  }

  lemma DistinctBound(xs: seq<nat>)
    ensures |Ascending(Elements(xs))| <= |xs|
  {
    if xs == [] {
      assert Elements(xs) == {};
    } else {
      DistinctBound(xs[1..]);
      assert Elements(xs) == {xs[0]} + Elements(xs[1..]);
    }
  }

  /** While a complete snapshot is fresh and the ledger stands still, both admission checks accept it. */
  lemma FreshAccepted(c: Codec, req: Request, connectors: Registry, e: Evidence, now0: Time, now: Time)
    requires CollisionFree(c) && req.budget <= DEFAULT_BUDGET
    requires var snap := Resolve(c, e, req.vertical, req.scope, req.digests, connectors, now0, req.budget);
             snap.state == Complete && snap.FreshAt(now)
    ensures Accepts(c, req, connectors, e,
                    Resolve(c, e, req.vertical, req.scope, req.digests, connectors, now0, req.budget), now)
  {
    var v, s, digests, budget := req.vertical, req.scope, req.digests, req.budget;
    var snap := Resolve(c, e, v, s, digests, connectors, now0, budget);
    CompleteIsExact(c, e, v, s, digests, connectors, now0, budget);
    FreshAllAdmitted(c, e, v, s, digests, connectors, now0, budget, now);
    PayloadsReresolve(c, e, v, s, digests, connectors, now0, budget);
    DistinctBound(digests);
    assert snap.requested == Ascending(Elements(digests)) && snap.vertical == v && snap.scopeBinding == c.scopeId(v, s);
    assert digests == [] ==> Elements(digests) == {};
    hide CollisionFree, AllAdmitted, Elements, DependencyChanges, Resolve;
    ExactIsComplete(c, e, v, s, digests, connectors, now, budget, snap.records);
    RecordsAgreeNow(c, req, connectors, e, now0, now);
  }

  lemma RecordsAgreeNow(c: Codec, req: Request, connectors: Registry, e: Evidence, now0: Time, now: Time)
    requires CollisionFree(c) && req.budget <= DEFAULT_BUDGET
    requires var snap := Resolve(c, e, req.vertical, req.scope, req.digests, connectors, now0, req.budget);
             snap.state == Complete && snap.FreshAt(now)
    ensures var snap := Resolve(c, e, req.vertical, req.scope, req.digests, connectors, now0, req.budget);
            var deps := DependenciesOf(snap.records);
            && DependencyChanges(c, e, req.vertical, req.scope, deps, now) == []
            && Resolve(c, e, req.vertical, req.scope, Payloads(deps), connectors, now, DEFAULT_BUDGET) == snap
  {
    var snap := Resolve(c, e, req.vertical, req.scope, req.digests, connectors, now0, req.budget);
    CompleteIsExact(c, e, req.vertical, req.scope, req.digests, connectors, now0, req.budget);
    FreshAllAdmitted(c, e, req.vertical, req.scope, req.digests, connectors, now0, req.budget, now);
    hide CollisionFree, AllAdmitted, DependencyChanges, Resolve;
    RecordsAgree(c, e, e, req.vertical, req.scope, snap.requested, connectors, now0, now, req.budget, req.budget,
                 snap.records);
    CheckersAgree(c, e, e, req.vertical, req.scope, req.digests, connectors, now0, now, req.budget, DEFAULT_BUDGET);
  }

  /** The request is admissible and nothing but evidence can refuse its plan. */
  ghost predicate Unobstructed(req: Request, around: Surroundings) {
    && ScopeValid(req.vertical, req.scope) && |req.digests| <= MAX_REFERENCES && req.budget <= DEFAULT_BUDGET
    && around.sourceBound && around.verticalReady && around.endpointBound && around.revisionDeclared
    && around.lambdaFloorMet && around.contextBudgetMet && around.servingContractMet && around.bindingBlockers == {}
  }

  /** Checking a standing row against unchanged fresh evidence reports CURRENT and moves its check time only. */
  lemma CheckFresh(c: Codec, db: Db, k: Key, now: Time, connectors: Registry)
    requires ScopeValid(k.vertical, k.scope) && now >= 0 && k in db.assessments
    requires var a := db.assessments[k];
             && !a.invalidated && a.deps != [] && |a.deps| <= MAX_REFERENCES && a.lastCheckedAt <= now
             && DependencyChanges(c, db.evidence, k.vertical, k.scope, a.deps, now) == []
             && c.snapshotId(Resolve(c, db.evidence, k.vertical, k.scope, Payloads(a.deps), connectors, now,
                                     DEFAULT_BUDGET))
                == a.snapshotId
    ensures var (after, outcome) := CheckStatus(c, db, k, At(now), connectors);
            && outcome.Status? && outcome.current && after.evidence == db.evidence && k in after.assessments
            && after.assessments[k] == db.assessments[k].(reasons := [], lastCheckedAt := now)
  {
    hide DependencyChanges, Resolve;
  }

  lemma NoBlockers(c: Codec, req: Request, connectors: Registry, e: Evidence, around: Surroundings, snap: Snapshot,
                   now: Time)
    requires Unobstructed(req, around) && Accepts(c, req, connectors, e, snap, now)
    requires ResolvedCount(snap).value >= req.minimumEvidence
    ensures PlanBlockers(req, around, snap, now) == {}
  {
    hide Resolve, DependencyChanges, Elements;
  }

  /** The row a quiet plan keeps, and the evidence it rests on. */
  ghost predicate Standing(c: Codec, db: Db, e: Evidence, key: Key, snap: Snapshot, last: Time) {
    && db.evidence == e && key in db.assessments
    && db.assessments[key].snapshotId == c.snapshotId(snap)
    && db.assessments[key].deps == DependenciesOf(snap.records)
    && !db.assessments[key].invalidated && db.assessments[key].lastCheckedAt == last
  }

  lemma PlanAdvances(c: Codec, req: Request, connectors: Registry, db: Db, around: Surroundings, id: Digest,
                     snap: Snapshot, now: Time, r: Reading)
    requires snap.MatchesScope(c, req.vertical, req.scope, req.digests) && PlanBlockers(req, around, snap, now) == {}
    requires var outcome := Register(c, db, Key(req.vertical, req.scope, id), IntelligencePlan, snap, r).1;
             outcome.Status? && outcome.current
    ensures var key := Key(req.vertical, req.scope, id);
            StepOf(c, req, connectors, db, Resolved(snap), PlanStep(true, around, id, now, r))
            == (Register(c, db, key, IntelligencePlan, snap, r).0, Registered(snap, key))
  {
    hide Register, PlanBlockers, Elements, Apply, CheckStatus, ResolveFor;
  }

  lemma QuietPlan(c: Codec, req: Request, connectors: Registry, db: Db, around: Surroundings, id: Digest,
                  snap: Snapshot, now: Time, later: Time)
    requires Unobstructed(req, around) && 0 <= later
    requires Accepts(c, req, connectors, db.evidence, snap, now)
             && Accepts(c, req, connectors, db.evidence, snap, later)
    requires ResolvedCount(snap).value >= req.minimumEvidence
    requires Key(req.vertical, req.scope, id) !in db.assessments
    requires |InScope(db, req.vertical, req.scope)| < MAX_ASSESSMENTS_PER_SCOPE
    ensures var key := Key(req.vertical, req.scope, id);
            var (after, phase) := StepOf(c, req, connectors, db, Resolved(snap),
                                         PlanStep(true, around, id, now, At(later)));
            phase == Registered(snap, key) && Standing(c, after, db.evidence, key, snap, later)
  {
    hide Resolve, DependencyChanges, PlanBlockers, Elements, InScope, StepOf, ResolvedCount;
    var key := Key(req.vertical, req.scope, id);
    NoBlockers(c, req, connectors, db.evidence, around, snap, now);
    assert |DependenciesOf(snap.records)| > 0;
    hide Register;
    PlanAdvances(c, req, connectors, db, around, id, snap, now, At(later));
  }

  lemma QuietStatus(c: Codec, req: Request, connectors: Registry, db: Db, e: Evidence, key: Key, snap: Snapshot,
                    last: Time, now: Time)
    requires key.vertical == req.vertical && key.scope == req.scope && ScopeValid(req.vertical, req.scope)
    requires |req.digests| <= MAX_REFERENCES && 0 <= now && last <= now
    requires Accepts(c, req, connectors, e, snap, now) && Standing(c, db, e, key, snap, last)
    ensures var (after, outcome) := CheckStatus(c, db, key, At(now), connectors);
            outcome.Status? && outcome.current && Standing(c, after, e, key, snap, now)
  {
    CheckFresh(c, db, key, now, connectors);
    hide Resolve, DependencyChanges, CheckStatus, Elements;
  }

  lemma AfterPrefix(c: Codec, req: Request, connectors: Registry, history: seq<Event>, own: seq<Event>, k: nat)
    requires k < |own|
    ensures After(c, req, connectors, history + own[..k + 1])
            == Next(c, req, connectors, After(c, req, connectors, history + own[..k]), own[k])
  {
    hide Next;
    var longer := history + own[..k + 1];
    assert longer[..|longer| - 1] == history + own[..k];
  }

  /** The steps of one request at the given times, with nothing going wrong around it. */
  function Smooth(around: Surroundings, id: Digest, t: seq<Time>, reply: string): seq<Event>
    requires |t| == 8
  {
    [ResolveStep(true, t[0]), PlanStep(true, around, id, t[0], At(t[1])), FreshStep(t[2]), FirstStatus(true, At(t[3])),
     FirstResolve(true, t[4]), ProviderStep(Some(reply)), SecondStatus(true, At(t[5])), FinalResolve(true, t[6], t[7]),
     ReleaseStep(true)]
  }

  /** A state with a standing plan, at a given phase. */
  ghost predicate Stands(c: Codec, sys: System, phase: Phase, e: Evidence, key: Key, snap: Snapshot, last: Time) {
    sys.phase == phase && Standing(c, sys.db, e, key, snap, last)
  }

  /** A status check that reports CURRENT moves the request on, to the ledger the check left. */
  lemma StatusAdvances(c: Codec, req: Request, connectors: Registry, sys: System, key: Key, snap: Snapshot, r: Reading,
                       reply: string)
    requires CheckStatus(c, sys.db, key, r, connectors).1.Status?
             && CheckStatus(c, sys.db, key, r, connectors).1.current
    ensures sys.phase == Dated(snap, key) ==>
              var next := Next(c, req, connectors, sys, FirstStatus(true, r));
              next.phase == Cleared(snap, key) && next.db == CheckStatus(c, sys.db, key, r, connectors).0
    ensures sys.phase == Answered(snap, key, reply) ==>
              var next := Next(c, req, connectors, sys, SecondStatus(true, r));
              next.phase == Confirmed(snap, key, reply) && next.db == CheckStatus(c, sys.db, key, r, connectors).0
  {
    hide CheckStatus, Apply, Register, PlanBlockers, ResolveFor;
  }

  lemma StepFirstStatus(c: Codec, req: Request, connectors: Registry, sys: System, e: Evidence, key: Key,
                        snap: Snapshot, last: Time, now: Time)
    requires key.vertical == req.vertical && key.scope == req.scope && ScopeValid(req.vertical, req.scope)
    requires |req.digests| <= MAX_REFERENCES && 0 <= now && last <= now
    requires Accepts(c, req, connectors, e, snap, now)
    requires Stands(c, sys, Dated(snap, key), e, key, snap, last)
    ensures Stands(c, Next(c, req, connectors, sys, FirstStatus(true, At(now))), Cleared(snap, key), e, key, snap, now)
  {
    hide Accepts, Standing, CheckStatus, Next;
    QuietStatus(c, req, connectors, sys.db, e, key, snap, last, now);
    StatusAdvances(c, req, connectors, sys, key, snap, At(now), "");
  }

  lemma StepSecondStatus(c: Codec, req: Request, connectors: Registry, sys: System, e: Evidence, key: Key,
                         snap: Snapshot, last: Time, now: Time, reply: string)
    requires key.vertical == req.vertical && key.scope == req.scope && ScopeValid(req.vertical, req.scope)
    requires |req.digests| <= MAX_REFERENCES && 0 <= now && last <= now
    requires Accepts(c, req, connectors, e, snap, now)
    requires Stands(c, sys, Answered(snap, key, reply), e, key, snap, last)
    ensures Stands(c, Next(c, req, connectors, sys, SecondStatus(true, At(now))), Confirmed(snap, key, reply), e, key,
                   snap, now)
  {
    hide Accepts, Standing, CheckStatus, Next;
    QuietStatus(c, req, connectors, sys.db, e, key, snap, last, now);
    StatusAdvances(c, req, connectors, sys, key, snap, At(now), reply);
  }

  lemma StepFresh(c: Codec, req: Request, connectors: Registry, sys: System, e: Evidence, key: Key, snap: Snapshot,
                  last: Time, now: Time)
    requires snap.FreshAt(now) && Stands(c, sys, Registered(snap, key), e, key, snap, last)
    ensures Stands(c, Next(c, req, connectors, sys, FreshStep(now)), Dated(snap, key), e, key, snap, last)
  {
    hide Standing, DependencyChanges, Elements, CheckStatus, Apply, Register, PlanBlockers;
  }

  lemma StepResolve(c: Codec, req: Request, connectors: Registry, sys: System, e: Evidence, key: Key, snap: Snapshot,
                    last: Time, now: Time)
    requires Resolve(c, e, req.vertical, req.scope, req.digests, connectors, now, req.budget) == snap
    requires Stands(c, sys, Cleared(snap, key), e, key, snap, last)
    ensures Stands(c, Next(c, req, connectors, sys, FirstResolve(true, now)), Dispatched(snap, key), e, key, snap, last)
  {
    hide Resolve, DependencyChanges, Elements, CheckStatus, Apply, Register, PlanBlockers;
  }

  lemma StepProvider(c: Codec, req: Request, connectors: Registry, sys: System, e: Evidence, key: Key, snap: Snapshot,
                     last: Time, reply: string)
    requires Stands(c, sys, Dispatched(snap, key), e, key, snap, last)
    ensures Stands(c, Next(c, req, connectors, sys, ProviderStep(Some(reply))), Answered(snap, key, reply), e, key,
                   snap, last)
  {
    hide Standing, DependencyChanges, Elements, CheckStatus, Apply, Register, PlanBlockers;
  }

  lemma StepSettle(c: Codec, req: Request, connectors: Registry, sys: System, e: Evidence, key: Key, snap: Snapshot,
                   last: Time, now: Time, later: Time, reply: string)
    requires Resolve(c, e, req.vertical, req.scope, req.digests, connectors, now, req.budget) == snap
    requires snap.FreshAt(later) && Stands(c, sys, Confirmed(snap, key, reply), e, key, snap, last)
    ensures Stands(c, Next(c, req, connectors, sys, FinalResolve(true, now, later)), Settled(snap, key, reply), e,
                   key, snap, last)
  {
    hide Resolve, DependencyChanges, Elements, CheckStatus, Apply, Register, PlanBlockers;
  }

  lemma StepRelease(c: Codec, req: Request, connectors: Registry, sys: System, snap: Snapshot, key: Key, reply: string)
    requires sys.phase == Settled(snap, key, reply)
    ensures Next(c, req, connectors, sys, ReleaseStep(true)).phase == Released(snap, key, reply)
  {
    hide CheckStatus, Apply, Register, PlanBlockers, ResolveFor;
  }

  lemma AcceptsMeans(c: Codec, req: Request, connectors: Registry, e: Evidence, snap: Snapshot, now: Time)
    requires Accepts(c, req, connectors, e, snap, now)
    ensures snap.FreshAt(now)
    ensures Resolve(c, e, req.vertical, req.scope, req.digests, connectors, now, req.budget) == snap
  {
    hide Resolve, DependencyChanges, Elements;
  }

  ghost predicate AcceptedThroughout(c: Codec, req: Request, connectors: Registry, e: Evidence, snap: Snapshot,
                                     t: seq<Time>) {
    && |t| == 8
    && (forall i, j | 0 <= i <= j < 8 :: 0 <= t[i] <= t[j])
    && (forall i | 0 <= i < 8 :: Accepts(c, req, connectors, e, snap, t[i]))
  }

  /** From a registered plan to dispatch. */
  lemma QuietDispatch(c: Codec, req: Request, connectors: Registry, sys: System, e: Evidence, around: Surroundings,
                      key: Key, snap: Snapshot, t: seq<Time>, reply: string)
    requires Unobstructed(req, around) && key.vertical == req.vertical && key.scope == req.scope
    requires AcceptedThroughout(c, req, connectors, e, snap, t)
    requires Stands(c, sys, Registered(snap, key), e, key, snap, t[1])
    ensures var own := Smooth(around, key.id, t, reply);
            var s3 := Next(c, req, connectors, sys, own[2]);
            var s4 := Next(c, req, connectors, s3, own[3]);
            Stands(c, Next(c, req, connectors, s4, own[4]), Dispatched(snap, key), e, key, snap, t[3])
  {
    hide Accepts, Stands, Next, Resolve;
    var own := Smooth(around, key.id, t, reply);
    AcceptsMeans(c, req, connectors, e, snap, t[2]);
    AcceptsMeans(c, req, connectors, e, snap, t[4]);
    StepFresh(c, req, connectors, sys, e, key, snap, t[1], t[2]);
    var s3 := Next(c, req, connectors, sys, own[2]);
    StepFirstStatus(c, req, connectors, s3, e, key, snap, t[1], t[3]);
    var s4 := Next(c, req, connectors, s3, own[3]);
    StepResolve(c, req, connectors, s4, e, key, snap, t[3], t[4]);
  }

  /** From dispatch to release. */
  lemma QuietAnswer(c: Codec, req: Request, connectors: Registry, sys: System, e: Evidence, around: Surroundings,
                    key: Key, snap: Snapshot, t: seq<Time>, reply: string)
    requires Unobstructed(req, around) && key.vertical == req.vertical && key.scope == req.scope
    requires AcceptedThroughout(c, req, connectors, e, snap, t)
    requires Stands(c, sys, Dispatched(snap, key), e, key, snap, t[3])
    ensures var own := Smooth(around, key.id, t, reply);
            var s6 := Next(c, req, connectors, sys, own[5]);
            var s7 := Next(c, req, connectors, s6, own[6]);
            var s8 := Next(c, req, connectors, s7, own[7]);
            Next(c, req, connectors, s8, own[8]).phase == Released(snap, key, reply)
  {
    hide Accepts, Standing, Next, Resolve;
    var own := Smooth(around, key.id, t, reply);
    AcceptsMeans(c, req, connectors, e, snap, t[6]);
    AcceptsMeans(c, req, connectors, e, snap, t[7]);
    StepProvider(c, req, connectors, sys, e, key, snap, t[3], reply);
    var s6 := Next(c, req, connectors, sys, own[5]);
    StepSecondStatus(c, req, connectors, s6, e, key, snap, t[3], t[5], reply);
    var s7 := Next(c, req, connectors, s6, own[6]);
    StepSettle(c, req, connectors, s7, e, key, snap, t[5], t[6], t[7], reply);
    StepRelease(c, req, connectors, Next(c, req, connectors, s7, own[7]), snap, key, reply);
  }

  /**
   A request nobody disturbs, over evidence that resolves and outlives it, with a clock that does not
   run backwards, releases its output: after any earlier history, no check refuses it.
   */
  lemma QuietRunReleases(c: Codec, req: Request, connectors: Registry, history: seq<Event>, around: Surroundings,
                         id: Digest, t: seq<Time>, reply: string)
    requires CollisionFree(c) && Unobstructed(req, around) && |t| == 8
    requires forall i, j | 0 <= i <= j < 8 :: 0 <= t[i] <= t[j]
    requires var sys := After(c, req, connectors, history);
             var snap := Resolve(c, sys.db.evidence, req.vertical, req.scope, req.digests, connectors, t[0],
                                 req.budget);
             && sys.phase.Idle? && snap.state == Complete
             && (forall i | 0 <= i < |snap.records| :: t[7] < snap.records[i].expiresAt)
             && |Elements(req.digests)| >= req.minimumEvidence
             && Key(req.vertical, req.scope, id) !in sys.db.assessments
             && |InScope(sys.db, req.vertical, req.scope)| < MAX_ASSESSMENTS_PER_SCOPE
    ensures After(c, req, connectors, history + Smooth(around, id, t, reply)).phase.Released?
  {
    var sys := After(c, req, connectors, history);
    var snap := Resolve(c, sys.db.evidence, req.vertical, req.scope, req.digests, connectors, t[0], req.budget);
    hide CollisionFree, Resolve, InScope, ResolvedCount, Standing, After, AcceptedThroughout, Elements, StepOf;
    QuietEvidence(c, req, connectors, sys.db.evidence, t);
    QuietOpening(c, req, connectors, sys, around, id, snap, t, reply);
    QuietSequel(c, req, connectors, history, sys, sys.db.evidence, around, Key(req.vertical, req.scope, id), snap, t,
                reply);
  }

  lemma FreshThroughout(c: Codec, req: Request, connectors: Registry, e: Evidence, t: seq<Time>)
    requires CollisionFree(c) && req.budget <= DEFAULT_BUDGET && |t| == 8
    requires forall i, j | 0 <= i <= j < 8 :: 0 <= t[i] <= t[j]
    requires var snap := Resolve(c, e, req.vertical, req.scope, req.digests, connectors, t[0], req.budget);
             snap.state == Complete && snap.FreshAt(t[7])
    ensures AcceptedThroughout(c, req, connectors, e,
                               Resolve(c, e, req.vertical, req.scope, req.digests, connectors, t[0], req.budget), t)
  {
    hide Accepts, Resolve;
    forall i | 0 <= i < 8
      ensures Accepts(c, req, connectors, e,
                      Resolve(c, e, req.vertical, req.scope, req.digests, connectors, t[0], req.budget), t[i])
    {
      FreshMeanwhile(c, req, connectors, e, t[0], t[i], t[7]);
      FreshAccepted(c, req, connectors, e, t[0], t[i]);
    }
  }

  /** The first two events register the plan. */
  lemma QuietOpening(c: Codec, req: Request, connectors: Registry, sys: System, around: Surroundings, id: Digest,
                     snap: Snapshot, t: seq<Time>, reply: string)
    requires Unobstructed(req, around) && AcceptedThroughout(c, req, connectors, sys.db.evidence, snap, t)
    requires sys.phase.Idle? && ResolvedCount(snap).Some? && ResolvedCount(snap).value >= req.minimumEvidence
    requires Key(req.vertical, req.scope, id) !in sys.db.assessments
    requires |InScope(sys.db, req.vertical, req.scope)| < MAX_ASSESSMENTS_PER_SCOPE
    ensures var own := Smooth(around, id, t, reply);
            var key := Key(req.vertical, req.scope, id);
            Stands(c, Next(c, req, connectors, Next(c, req, connectors, sys, own[0]), own[1]), Registered(snap, key),
                   sys.db.evidence, key, snap, t[1])
  {
    hide Accepts, Resolve, StepOf, InScope, ResolvedCount, Standing, Next;
    AcceptsMeans(c, req, connectors, sys.db.evidence, snap, t[0]);
    QuietPlan(c, req, connectors, sys.db, around, id, snap, t[0], t[1]);
    PlanningSteps(c, req, connectors, sys, around, id, snap, t[0], t[1]);
  }

  /** The whole run, once its plan is known to be registered. */
  lemma QuietSequel(c: Codec, req: Request, connectors: Registry, history: seq<Event>, sys: System, e: Evidence,
                    around: Surroundings, key: Key, snap: Snapshot, t: seq<Time>, reply: string)
    requires Unobstructed(req, around) && key.vertical == req.vertical && key.scope == req.scope
    requires AcceptedThroughout(c, req, connectors, e, snap, t)
    requires sys == After(c, req, connectors, history)
    requires var own := Smooth(around, key.id, t, reply);
             Stands(c, Next(c, req, connectors, Next(c, req, connectors, sys, own[0]), own[1]), Registered(snap, key),
                    e, key, snap, t[1])
    ensures After(c, req, connectors, history + Smooth(around, key.id, t, reply)).phase.Released?
  {
    hide Accepts, Standing, Next, After;
    var own := Smooth(around, key.id, t, reply);
    assert history + own[..0] == history && own[..9] == own;
    AfterPrefix(c, req, connectors, history, own, 0);
    AfterPrefix(c, req, connectors, history, own, 1);
    AfterPrefix(c, req, connectors, history, own, 2);
    AfterPrefix(c, req, connectors, history, own, 3);
    AfterPrefix(c, req, connectors, history, own, 4);
    AfterPrefix(c, req, connectors, history, own, 5);
    AfterPrefix(c, req, connectors, history, own, 6);
    AfterPrefix(c, req, connectors, history, own, 7);
    AfterPrefix(c, req, connectors, history, own, 8);
    QuietDispatch(c, req, connectors, After(c, req, connectors, history + own[..2]), e, around, key, snap, t, reply);
    QuietAnswer(c, req, connectors, After(c, req, connectors, history + own[..5]), e, around, key, snap, t, reply);
  }

  lemma PlanningSteps(c: Codec, req: Request, connectors: Registry, sys: System, around: Surroundings, id: Digest,
                      snap: Snapshot, now: Time, later: Time)
    requires sys.phase.Idle?
             && Resolve(c, sys.db.evidence, req.vertical, req.scope, req.digests, connectors, now, req.budget) == snap
    ensures var s2 := Next(c, req, connectors, Next(c, req, connectors, sys, ResolveStep(true, now)),
                           PlanStep(true, around, id, now, At(later)));
            (s2.db, s2.phase) == StepOf(c, req, connectors, sys.db, Resolved(snap),
                                        PlanStep(true, around, id, now, At(later)))
  {
    hide Resolve, Apply, Register, CheckStatus, PlanBlockers;
  }

  lemma QuietEvidence(c: Codec, req: Request, connectors: Registry, e: Evidence, t: seq<Time>)
    requires CollisionFree(c) && req.budget <= DEFAULT_BUDGET && |t| == 8
    requires forall i, j | 0 <= i <= j < 8 :: 0 <= t[i] <= t[j]
    requires var snap := Resolve(c, e, req.vertical, req.scope, req.digests, connectors, t[0], req.budget);
             && snap.state == Complete && (forall i | 0 <= i < |snap.records| :: t[7] < snap.records[i].expiresAt)
             && |Elements(req.digests)| >= req.minimumEvidence
    ensures var snap := Resolve(c, e, req.vertical, req.scope, req.digests, connectors, t[0], req.budget);
            && AcceptedThroughout(c, req, connectors, e, snap, t)
            && ResolvedCount(snap).Some? && ResolvedCount(snap).value >= req.minimumEvidence
  {
    hide CollisionFree, Resolve, Cited, Elements, AcceptedThroughout;
    CitedAreReferences(c, e, req.vertical, req.scope, req.digests, connectors, t[0], req.budget);
    ObservedBefore(c, req, connectors, e, t[0]);
    FreshThroughout(c, req, connectors, e, t);
  }

  /** The records of a complete snapshot were observed before it was taken. */
  lemma ObservedBefore(c: Codec, req: Request, connectors: Registry, e: Evidence, now: Time)
    requires Resolve(c, e, req.vertical, req.scope, req.digests, connectors, now, req.budget).state == Complete
    ensures var snap := Resolve(c, e, req.vertical, req.scope, req.digests, connectors, now, req.budget);
      snap.records != [] && forall i | 0 <= i < |snap.records| :: snap.records[i].observedAt <= now
  {
    var snap := Resolve(c, e, req.vertical, req.scope, req.digests, connectors, now, req.budget);
    CompleteIsExact(c, e, req.vertical, req.scope, req.digests, connectors, now, req.budget);
    assert snap.requested != [];
    hide Resolve, AdmitIn;
    forall i | 0 <= i < |snap.records| ensures snap.records[i].observedAt <= now {
      AdmittedObserved(c, e, req.vertical, req.scope, snap.requested[i], connectors, now, req.budget,
                       snap.records[i]);
    }
  }

  lemma AdmittedObserved(c: Codec, e: Evidence, v: string, s: string, d: Digest, connectors: Registry, now: Time,
                         budget: nat, r: Record)
    requires AdmitIn(c, e, v, s, d, connectors, now, budget) == Some(r)
    ensures r.observedAt <= now
  {
  }

  /** A snapshot resolved at one time and fresh at another is fresh in between. */
  lemma FreshMeanwhile(c: Codec, req: Request, connectors: Registry, e: Evidence, now0: Time, now: Time, last: Time)
    requires now0 <= now <= last
    requires var snap := Resolve(c, e, req.vertical, req.scope, req.digests, connectors, now0, req.budget);
             snap.state == Complete && snap.FreshAt(last)
    ensures Resolve(c, e, req.vertical, req.scope, req.digests, connectors, now0, req.budget).FreshAt(now)
  {
    hide Resolve;
    ObservedBefore(c, req, connectors, e, now0);
  }
}
