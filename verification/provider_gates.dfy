/**
 The gates of one request, each written out: what must be true of the ledger and of an event for the event to
 move the request on, in both directions, and the positions of those events in the run of a released request.
 */
module ProviderGates {
  import opened Prelude
  import opened Ledger
  import opened LedgerSafety
  import opened Admission
  import opened Invocation
  import EvidenceRows

  /** How far a request has come. */
  function Rank(p: Phase): nat {
    match p
    case Idle => 0
    case Resolved(_) => 1
    case Registered(_, _) => 2
    case Dated(_, _) => 3
    case Cleared(_, _) => 4
    case Dispatched(_, _) => 5
    case Answered(_, _, _) => 6
    case Confirmed(_, _, _) => 7
    case Settled(_, _, _) => 8
    case Released(_, _, _) => 9
    case Refused => 0
  }

  /** What was decided about the request earlier is still so. */
  predicate Carries(p: Phase, q: Phase) {
    && !p.Refused? && !q.Refused?
    && (Rank(p) >= 1 ==> Rank(q) >= 1 && q.snap == p.snap)
    && (Rank(p) >= 2 ==> Rank(q) >= 2 && q.key == p.key)
    && (Rank(p) >= 6 ==> Rank(q) >= 6 && q.reply == p.reply)
  }

  predicate CurrentStatus(outcome: Outcome) { outcome.Status? && outcome.current }

  /** What lets the event take the request to the phase `q`. */
  ghost predicate Opens(c: Codec, req: Request, connectors: Registry, db: Db, ev: Event, q: Phase) {
    match q
    case Idle => false
    case Refused => false
    case Resolved(snap) =>
      && ev.ResolveStep? && ev.up
      && Resolve(c, db.evidence, req.vertical, req.scope, req.digests, connectors, ev.now, req.budget) == snap
    case Registered(snap, key) =>
      && ev.PlanStep? && ev.up && key == Key(req.vertical, req.scope, ev.id)
      && InScopeOf(c, req, snap) && GatesOpen(req, ev.around, snap, ev.now)
      && CurrentStatus(Register(c, db, key, IntelligencePlan, snap, ev.reading).1)
    case Dated(snap, _) => ev.FreshStep? && AllFresh(snap, ev.now)
    case Cleared(_, key) =>
      ev.FirstStatus? && ev.up && CurrentStatus(CheckStatus(c, db, key, ev.reading, connectors).1)
    case Dispatched(snap, _) =>
      && ev.FirstResolve? && ev.up
      && Resolve(c, db.evidence, req.vertical, req.scope, req.digests, connectors, ev.now, req.budget) == snap
    case Answered(_, _, reply) => ev.ProviderStep? && ev.reply == Some(reply)
    case Confirmed(_, key, _) =>
      ev.SecondStatus? && ev.up && CurrentStatus(CheckStatus(c, db, key, ev.reading, connectors).1)
    case Settled(snap, _, _) =>
      && ev.FinalResolve? && ev.up && AllFresh(snap, ev.later)
      && Resolve(c, db.evidence, req.vertical, req.scope, req.digests, connectors, ev.now, req.budget) == snap
    case Released(_, _, _) => ev.ReleaseStep? && ev.accepted
  }

  lemma PlanGate(c: Codec, req: Request, connectors: Registry, db: Db, snap: Snapshot, ev: Event, q: Phase)
    requires q.Registered? && q.snap == snap
    ensures StepOf(c, req, connectors, db, Resolved(snap), ev).1 == q <==> Opens(c, req, connectors, db, ev, q)
  {
    hide Resolve, Register, CheckStatus, Apply, PlanBlockers, GatesOpen, AllFresh, Elements, Ascending, ResolveFor;
    if ev.PlanStep? { GatesOpenExactly(req, ev.around, snap, ev.now); }
  }

  /** A plan that lacks anything, or a scope mismatch, registers nothing and is refused. */
  lemma PlanRegistersExactly(c: Codec, req: Request, connectors: Registry, db: Db, snap: Snapshot, up: bool,
                             around: Surroundings, id: Digest, now: Time, reading: Reading)
    ensures var (after, phase) :=
              StepOf(c, req, connectors, db, Resolved(snap), PlanStep(up, around, id, now, reading));
      if up && InScopeOf(c, req, snap) && GatesOpen(req, around, snap, now)
      then after == Register(c, db, Key(req.vertical, req.scope, id), IntelligencePlan, snap, reading).0
      else after == db && phase == Refused
  {
    hide Register, CheckStatus, Apply, PlanBlockers, GatesOpen, Elements, Ascending;
    GatesOpenExactly(req, around, snap, now);
  }

  lemma SettleGate(c: Codec, req: Request, connectors: Registry, db: Db, p: Phase, ev: Event, q: Phase)
    requires CollisionFree(c) && p.Confirmed? && q == Settled(p.snap, p.key, p.reply) && p.snap.state == Complete
    ensures StepOf(c, req, connectors, db, p, ev).1 == q <==> Opens(c, req, connectors, db, ev, q)
  {
    hide Resolve, Register, CheckStatus, Apply, PlanBlockers, GatesOpen, AllFresh, Elements, Ascending;
    if ev.FinalResolve? { FreshExactly(p.snap, ev.later); }
  }

  lemma DispatchGate(c: Codec, req: Request, connectors: Registry, db: Db, p: Phase, ev: Event, q: Phase)
    requires CollisionFree(c) && p.Cleared? && q == Dispatched(p.snap, p.key) && p.snap.state == Complete
    ensures StepOf(c, req, connectors, db, p, ev).1 == q <==> Opens(c, req, connectors, db, ev, q)
  {
    hide Resolve, Register, CheckStatus, Apply, PlanBlockers, GatesOpen, AllFresh, Elements, Ascending;
  }

  /** An event takes the request from one phase to the next if and only if it opens that gate. */
  lemma StepExactly(c: Codec, req: Request, connectors: Registry, db: Db, p: Phase, ev: Event, q: Phase)
    requires CollisionFree(c) && Rank(q) == Rank(p) + 1 && Carries(p, q) && q.snap.state == Complete
    ensures StepOf(c, req, connectors, db, p, ev).1 == q <==> Opens(c, req, connectors, db, ev, q)
  {
    if p.Resolved? {
      PlanGate(c, req, connectors, db, p.snap, ev, q);
    } else if p.Confirmed? {
      SettleGate(c, req, connectors, db, p, ev, q);
    } else if p.Cleared? {
      DispatchGate(c, req, connectors, db, p, ev, q);
    } else {
      hide CollisionFree;
      hide Resolve, Register, CheckStatus, Apply, PlanBlockers, GatesOpen, AllFresh, InScopeOf, Elements, Ascending;
      if ev.FreshStep? { FreshExactly(q.snap, ev.now); }
    }
  }

  /** An event moves the request on by one phase, refuses it, or leaves it where it is. */
  lemma StepByStep(c: Codec, req: Request, connectors: Registry, db: Db, p: Phase, ev: Event)
    ensures var q := StepOf(c, req, connectors, db, p, ev).1;
      q == p || q.Refused? || (!p.Refused? && Rank(q) == Rank(p) + 1 && Carries(p, q))
  {
    hide Resolve, Register, CheckStatus, Apply, PlanBlockers, ResolveFor;
  }

  function PhaseAt(c: Codec, req: Request, connectors: Registry, events: seq<Event>, n: nat): Phase
    requires n <= |events|
  {
    After(c, req, connectors, events[..n]).phase
  }

  /** The event at position `n` took the request to its `k`-th phase, from which it got to where it is now. */
  ghost predicate Entered(c: Codec, req: Request, connectors: Registry, events: seq<Event>, n: nat, k: nat) {
    && 0 < n <= |events|
    && var p, q := PhaseAt(c, req, connectors, events, n - 1), PhaseAt(c, req, connectors, events, n);
      && Rank(q) == k && Rank(p) + 1 == k && Carries(p, q)
      && Carries(q, After(c, req, connectors, events).phase)
      && StepOf(c, req, connectors, DbAt(c, req, connectors, events, n - 1), p, events[n - 1]).1 == q
  }

  lemma CarriesTransitive(p: Phase, q: Phase, r: Phase)
    requires Carries(p, q) && Carries(q, r)
    ensures Carries(p, r)
  {
  }

  lemma EnteredLonger(c: Codec, req: Request, connectors: Registry, events: seq<Event>, j: nat, n: nat, k: nat)
    requires j <= |events| && Entered(c, req, connectors, events[..j], n, k)
    requires Carries(PhaseAt(c, req, connectors, events, j), After(c, req, connectors, events).phase)
    ensures Entered(c, req, connectors, events, n, k)
  {
    hide After, StepOf, Carries, Rank;
    var init := events[..j];
    assert init[..n] == events[..n] && init[..n - 1] == events[..n - 1];
    CarriesTransitive(PhaseAt(c, req, connectors, events, n), After(c, req, connectors, init).phase,
                      After(c, req, connectors, events).phase);
  }

  lemma EnteredNow(c: Codec, req: Request, connectors: Registry, events: seq<Event>)
    requires events != []
    requires var p := After(c, req, connectors, events[..|events| - 1]).phase;
      var q := After(c, req, connectors, events).phase;
      Rank(q) == Rank(p) + 1 && Carries(p, q)
    ensures Entered(c, req, connectors, events, |events|, Rank(After(c, req, connectors, events).phase))
  {
    hide StepOf, After;
    LastStep(c, req, connectors, events);
    assert events[..|events|] == events;
  }

  /** Every phase up to the present one was entered by some event. */
  lemma {:induction false} Reached(c: Codec, req: Request, connectors: Registry, events: seq<Event>, k: nat)
    returns (n: nat)
    requires 1 <= k <= Rank(After(c, req, connectors, events).phase)
    ensures Entered(c, req, connectors, events, n, k)
  {
    hide StepOf, Carries, Entered, After;
    assert events != [] by { NothingReached(c, req, connectors, events); }
    var init := events[..|events| - 1];
    var p, q := After(c, req, connectors, init).phase, After(c, req, connectors, events).phase;
    LastStep(c, req, connectors, events);
    StepByStep(c, req, connectors, DbAt(c, req, connectors, events, |events| - 1), p, events[|events| - 1]);
    if q == p {
      CarriesItself(q);
      n := Reached(c, req, connectors, init, k);
      EnteredLonger(c, req, connectors, events, |events| - 1, n, k);
    } else if k == Rank(q) {
      n := |events|;
      EnteredNow(c, req, connectors, events);
    } else {
      n := Reached(c, req, connectors, init, k);
      EnteredLonger(c, req, connectors, events, |events| - 1, n, k);
    }
  }

  lemma NothingReached(c: Codec, req: Request, connectors: Registry, events: seq<Event>)
    requires Rank(After(c, req, connectors, events).phase) >= 1
    ensures events != []
  {
  }

  lemma CarriesItself(p: Phase)
    requires Rank(p) >= 1
    ensures Carries(p, p)
  {
  }

  lemma AllLonger(c: Codec, req: Request, connectors: Registry, events: seq<Event>, j: nat, at: seq<nat>)
    requires j <= |events| && Carries(PhaseAt(c, req, connectors, events, j), After(c, req, connectors, events).phase)
    requires forall k: nat | 1 <= k < |at| :: Entered(c, req, connectors, events[..j], at[k], k)
    ensures forall k: nat | 1 <= k < |at| :: Entered(c, req, connectors, events, at[k], k)
  {
    hide Entered, Carries, After;
    forall k: nat | 1 <= k < |at| ensures Entered(c, req, connectors, events, at[k], k) {
      EnteredLonger(c, req, connectors, events, j, at[k], k);
    }
  }

  lemma EnteredAt(c: Codec, req: Request, connectors: Registry, events: seq<Event>, n: nat, k: nat)
    requires Entered(c, req, connectors, events, n, k)
    ensures 0 < n <= |events| && Rank(PhaseAt(c, req, connectors, events, n - 1)) + 1 == k
    ensures Carries(PhaseAt(c, req, connectors, events, n - 1), After(c, req, connectors, events).phase)
  {
    hide StepOf, After, Carries, Rank;
    CarriesTransitive(PhaseAt(c, req, connectors, events, n - 1), PhaseAt(c, req, connectors, events, n),
                      After(c, req, connectors, events).phase);
  }

  /** The phases were entered one after the other. */
  lemma {:induction false} EnteredInOrder(c: Codec, req: Request, connectors: Registry, events: seq<Event>)
    returns (at: seq<nat>)
    ensures |at| == Rank(After(c, req, connectors, events).phase) + 1 && at[0] == 0
    ensures forall k: nat | 1 <= k < |at| ::
      at[k - 1] < at[k] <= |events| && Entered(c, req, connectors, events, at[k], k)
    decreases |events|
  {
    var r := Rank(After(c, req, connectors, events).phase);
    if r == 0 {
      at := [0];
    } else {
      hide StepOf, Carries, After, Rank, Entered;
      var n := Reached(c, req, connectors, events, r);
      EnteredAt(c, req, connectors, events, n, r);
      var before := EnteredInOrder(c, req, connectors, events[..n - 1]);
      AllLonger(c, req, connectors, events, n - 1, before);
      at := before + [n];
    }
  }

  /**
   However other requests interleave: a request that was planned, and however far it got from there, went
   through every gate up to its present phase, one after the other, each opened by an event that met what the
   gate asks for of the ledger at that moment. So the provider is called, and output released, after no fewer.
   */
  lemma ThroughAllGates(c: Codec, req: Request, connectors: Registry, events: seq<Event>) returns (at: seq<nat>)
    requires CollisionFree(c) && forall i | 0 <= i < |events| :: GenuineEvent(c, events[i])
    requires Rank(After(c, req, connectors, events).phase) >= 2
    ensures |at| == Rank(After(c, req, connectors, events).phase) + 1 && at[0] == 0
    ensures forall k: nat | 1 <= k < |at| ::
      && at[k - 1] < at[k] <= |events|
      && var q := PhaseAt(c, req, connectors, events, at[k]);
        && Rank(q) == k && Carries(q, After(c, req, connectors, events).phase)
        && Opens(c, req, connectors, DbAt(c, req, connectors, events, at[k] - 1), events[at[k] - 1], q)
  {
    hide CollisionFree, After, StepOf, Opens, Sound, DepsNamed, Hashed, Tracked, GenuineEvent;
    AfterConsistent(c, req, connectors, events);
    at := EnteredInOrder(c, req, connectors, events);
    forall k: nat | 1 <= k < |at|
      ensures Opens(c, req, connectors, DbAt(c, req, connectors, events, at[k] - 1), events[at[k] - 1],
                    PhaseAt(c, req, connectors, events, at[k]))
    {
      assert Entered(c, req, connectors, events, at[k], k);
      StepExactly(c, req, connectors, DbAt(c, req, connectors, events, at[k] - 1),
                  PhaseAt(c, req, connectors, events, at[k] - 1), events[at[k] - 1],
                  PhaseAt(c, req, connectors, events, at[k]));
    }
  }

  // ------------------------------------------------------------ what a release rests on

  /** The record is the genuine latest row of its payload, as it was shown, and the payload is not withdrawn. */
  predicate RecordStands(c: Codec, e: Evidence, v: string, s: string, r: Record) {
    && EvidenceRows.IsLatest(e, v, s, r.payload, r.receiptId)
    && Key(v, s, r.payload) !in e.withdrawals
    && c.receiptId(e.observations[r.receiptId].basis) == r.receiptId
    && e.observations[r.receiptId].summary == r.summary
  }

  lemma UndisturbedExactly(c: Codec, e: Evidence, key: Key, snap: Snapshot)
    ensures AllUndisturbed(c, e, key, snap)
            <==> forall r | r in snap.records :: RecordStands(c, e, key.vertical, key.scope, r)
  {
    hide EvidenceRows.IsLatest, IsNewest;
    forall i | 0 <= i < |snap.records|
      ensures Undisturbed(c, e, key.vertical, key.scope, snap.records[i])
              <==> RecordStands(c, e, key.vertical, key.scope, snap.records[i])
    {
      RecordUndisturbed(c, e, key.vertical, key.scope, snap.records[i]);
    }
    hide Undisturbed, RecordStands;
    forall r | r in snap.records && AllUndisturbed(c, e, key, snap)
      ensures RecordStands(c, e, key.vertical, key.scope, r)
    {
      var i :| 0 <= i < |snap.records| && snap.records[i] == r;
      assert Undisturbed(c, e, key.vertical, key.scope, snap.records[i]);
    }
    assert forall i | 0 <= i < |snap.records| :: snap.records[i] in snap.records;
  }

  lemma RecordUndisturbed(c: Codec, e: Evidence, v: string, s: string, r: Record)
    ensures Undisturbed(c, e, v, s, r) <==> RecordStands(c, e, v, s, r)
  {
    hide EvidenceRows.IsLatest, IsNewest;
    EvidenceRows.LatestIsNewest(e, v, s, r.payload, r.receiptId);
    if IsNewest(Slice(e, v, s, r.payload), r.receiptId) {
      assert r.receiptId in Slice(e, v, s, r.payload) by { NewestIsRow(Slice(e, v, s, r.payload), r.receiptId); }
    }
    if EvidenceRows.IsLatest(e, v, s, r.payload, r.receiptId) {
      EvidenceRows.LatestCites(e, v, s, r.payload, r.receiptId);
    }
  }

  lemma NewestIsRow(rows: map<Digest, Row>, id: Digest)
    requires IsNewest(rows, id)
    ensures id in rows
  {
  }

  /**
   Of a released request every cited record stood, unchanged and genuine, at every moment from the event that
   registered the plan to the status check after the reply.
   */
  lemma ReleasedRecordsStand(c: Codec, req: Request, connectors: Registry, events: seq<Event>, n: nat, r: Record)
    requires CollisionFree(c) && forall i | 0 <= i < |events| :: GenuineEvent(c, events[i])
    requires After(c, req, connectors, events).phase.Released?
    requires r in After(c, req, connectors, events).phase.snap.records
    requires var sys := After(c, req, connectors, events); sys.registered <= n <= sys.confirmed
    ensures n <= |events|
    ensures RecordStands(c, DbAt(c, req, connectors, events, n).evidence, req.vertical, req.scope, r)
  {
    hide CollisionFree, GenuineEvent, PlannedBy, ConfirmedBy, SettledBy, AllUndisturbed, RecordStands, DbAt;
    ReleaseRestsOnUndisturbedEvidence(c, req, connectors, events);
    var p := After(c, req, connectors, events).phase;
    UndisturbedExactly(c, DbAt(c, req, connectors, events, n).evidence, p.key, p.snap);
  }

  /** The event took the request through the gate to `q`, and `after` is the ledger it left. */
  ghost predicate Through(c: Codec, req: Request, connectors: Registry, events: seq<Event>, n: nat, q: Phase, after: Db)
  {
    && 0 < n <= |events| && DbAt(c, req, connectors, events, n) == after
    && Opens(c, req, connectors, DbAt(c, req, connectors, events, n - 1), events[n - 1], q)
  }

  /** The ledger before the `n`-th event. */
  function Before(c: Codec, req: Request, connectors: Registry, events: seq<Event>, n: nat): Db
    requires 0 < n <= |events|
  {
    DbAt(c, req, connectors, events, n - 1)
  }

  /** The event planned and registered the request. */
  ghost predicate RegisteredAt(c: Codec, req: Request, connectors: Registry, events: seq<Event>, n: nat, key: Key,
                               snap: Snapshot)
  {
    && 0 < n <= |events| && events[n - 1].PlanStep?
    && Through(c, req, connectors, events, n, Registered(snap, key),
         Register(c, Before(c, req, connectors, events, n), key, IntelligencePlan, snap, events[n - 1].reading).0)
  }

  /** The event was the status check after the reply. */
  ghost predicate CheckedAt(c: Codec, req: Request, connectors: Registry, events: seq<Event>, n: nat, key: Key,
                            snap: Snapshot, reply: string)
  {
    && 0 < n <= |events| && events[n - 1].SecondStatus?
    && Through(c, req, connectors, events, n, Confirmed(snap, key, reply),
         CheckStatus(c, Before(c, req, connectors, events, n), key, events[n - 1].reading, connectors).0)
  }

  /** The event was the last resolution. */
  ghost predicate ResolvedAt(c: Codec, req: Request, connectors: Registry, events: seq<Event>, n: nat, key: Key,
                             snap: Snapshot, reply: string)
  {
    && 0 < n <= |events| && events[n - 1].FinalResolve? && snap.state == Complete
    && Through(c, req, connectors, events, n, Settled(snap, key, reply), Before(c, req, connectors, events, n))
  }

  lemma PlannedThrough(c: Codec, req: Request, connectors: Registry, events: seq<Event>, n: nat, key: Key,
                       snap: Snapshot)
    requires PlannedBy(c, req, connectors, events, n, key, snap)
    ensures RegisteredAt(c, req, connectors, events, n, key, snap)
  {
    hide DbAt, Register, GatesOpen, InScopeOf;
  }

  lemma ConfirmedThrough(c: Codec, req: Request, connectors: Registry, events: seq<Event>, n: nat, key: Key,
                         snap: Snapshot, reply: string)
    requires ConfirmedBy(c, req, connectors, events, n, key)
    ensures CheckedAt(c, req, connectors, events, n, key, snap, reply)
  {
    hide DbAt, CheckStatus;
  }

  lemma SettledThrough(c: Codec, req: Request, connectors: Registry, events: seq<Event>, n: nat, key: Key,
                       snap: Snapshot, reply: string)
    requires SettledBy(c, req, connectors, events, n, snap)
    ensures ResolvedAt(c, req, connectors, events, n, key, snap, reply)
  {
    hide DbAt, Resolve, AllFresh;
  }

  lemma InOrder(c: Codec, req: Request, connectors: Registry, events: seq<Event>, r: nat, k: nat, s: nat, key: Key,
                snap: Snapshot, reply: string)
    requires r <= k <= s && RegisteredAt(c, req, connectors, events, r, key, snap)
    requires CheckedAt(c, req, connectors, events, k, key, snap, reply)
    requires ResolvedAt(c, req, connectors, events, s, key, snap, reply)
    ensures r < k < s
  {
    hide Through, Before;
  }

  /**
   Of a released request the registering, the confirming and the settling event come in this order, each opened
   its gate, and the ledger after it is what the call of that gate left.
   */
  lemma ReleasedThroughGates(c: Codec, req: Request, connectors: Registry, events: seq<Event>)
    requires CollisionFree(c) && forall i | 0 <= i < |events| :: GenuineEvent(c, events[i])
    requires After(c, req, connectors, events).phase.Released?
    ensures var sys := After(c, req, connectors, events);
      && sys.registered < sys.confirmed < sys.settled
      && RegisteredAt(c, req, connectors, events, sys.registered, sys.phase.key, sys.phase.snap)
      && CheckedAt(c, req, connectors, events, sys.confirmed, sys.phase.key, sys.phase.snap, sys.phase.reply)
      && ResolvedAt(c, req, connectors, events, sys.settled, sys.phase.key, sys.phase.snap, sys.phase.reply)
  {
    ReleaseRestsOnUndisturbedEvidence(c, req, connectors, events);
    hide *;
    var sys := After(c, req, connectors, events);
    var p := sys.phase;
    PlannedThrough(c, req, connectors, events, sys.registered, p.key, p.snap);
    ConfirmedThrough(c, req, connectors, events, sys.confirmed, p.key, p.snap, p.reply);
    SettledThrough(c, req, connectors, events, sys.settled, p.key, p.snap, p.reply);
    InOrder(c, req, connectors, events, sys.registered, sys.confirmed, sys.settled, p.key, p.snap, p.reply);
  }
}
