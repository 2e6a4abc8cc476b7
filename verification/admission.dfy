/**
 Two checks of the same evidence, written independently: comparing the recorded dependencies with
 the ledger, and resolving the references again and comparing snapshots. They agree, in both
 directions, although the second one runs under a larger byte budget than the plan did.
 */
module Admission {
  import opened Prelude
  import opened Ledger
  import opened LedgerSafety

  /** Every reference admitted, each record within budget on top of the ones before it. */
  ghost predicate AllAdmitted(c: Codec, e: Evidence, v: string, s: string, ds: seq<Digest>, connectors: Registry,
                              now: Time, budget: nat, records: seq<Record>)
  {
    && |records| == |ds|
    && (forall i | 0 <= i < |ds| :: AdmitIn(c, e, v, s, ds[i], connectors, now, budget) == Some(records[i]))
    && (forall i | 0 < i <= |ds| :: c.recordsBytes(records[..i]) <= budget)
  }

  lemma AllAdmittedSnoc(c: Codec, e: Evidence, v: string, s: string, ds: seq<Digest>, d: Digest, connectors: Registry,
                        now: Time, budget: nat, records: seq<Record>, r: Record)
    ensures AllAdmitted(c, e, v, s, ds + [d], connectors, now, budget, records + [r])
            <==> && AllAdmitted(c, e, v, s, ds, connectors, now, budget, records)
                 && AdmitIn(c, e, v, s, d, connectors, now, budget) == Some(r)
                 && c.recordsBytes(records + [r]) <= budget
  {
    if |records| == |ds| {
      var all := records + [r];
      assert all[..|all|] == all;
      assert forall i | 0 < i <= |ds| :: all[..i] == records[..i];
      if AllAdmitted(c, e, v, s, ds + [d], connectors, now, budget, all) {
        forall i | 0 <= i < |ds| ensures AdmitIn(c, e, v, s, ds[i], connectors, now, budget) == Some(records[i]) {
          assert (ds + [d])[i] == ds[i] && all[i] == records[i];
        }
        assert (ds + [d])[|ds|] == d && all[|ds|] == r;
      }
    }
  }

  /** A gathering without blockers admitted everything. */
  lemma {:induction false} GatherClean(c: Codec, e: Evidence, v: string, s: string, ds: seq<Digest>,
                                       connectors: Registry, now: Time, budget: nat)
    requires Gather(c, e, v, s, ds, connectors, now, budget).blockers == {}
    ensures AllAdmitted(c, e, v, s, ds, connectors, now, budget,
                        Gather(c, e, v, s, ds, connectors, now, budget).records)
  {
    if ds != [] {
      var init, d := ds[..|ds| - 1], ds[|ds| - 1];
      var g := Gather(c, e, v, s, init, connectors, now, budget);
      GatherClean(c, e, v, s, init, connectors, now, budget);
      AllAdmittedSnoc(c, e, v, s, init, d, connectors, now, budget, g.records,
                      AdmitIn(c, e, v, s, d, connectors, now, budget).value);
      assert init + [d] == ds;
    }
  }

  /** Where everything is admitted, gathering returns just that. */
  lemma {:induction false} GatherAll(c: Codec, e: Evidence, v: string, s: string, ds: seq<Digest>,
                                     connectors: Registry, now: Time, budget: nat, records: seq<Record>)
    requires AllAdmitted(c, e, v, s, ds, connectors, now, budget, records)
    ensures Gather(c, e, v, s, ds, connectors, now, budget) == Gathered(records, {})
  {
    if ds != [] {
      var init, d := ds[..|ds| - 1], ds[|ds| - 1];
      var front, r := records[..|records| - 1], records[|records| - 1];
      assert init + [d] == ds && front + [r] == records;
      AllAdmittedSnoc(c, e, v, s, init, d, connectors, now, budget, front, r);
      GatherAll(c, e, v, s, init, connectors, now, budget, front);
    }
  }

  /** A complete snapshot holds one admitted record per reference, in order. */
  lemma CompleteIsExact(c: Codec, e: Evidence, v: string, s: string, digests: seq<Digest>, connectors: Registry,
                        now: Time, budget: nat)
    requires Resolve(c, e, v, s, digests, connectors, now, budget).state == Complete
    ensures var snap := Resolve(c, e, v, s, digests, connectors, now, budget);
            AllAdmitted(c, e, v, s, snap.requested, connectors, now, budget, snap.records) && snap.blockers == {}
  {
    GatherClean(c, e, v, s, Ascending(Elements(digests)), connectors, now, budget);
  }

  /** Records admitted for all the references a snapshot requested make up that snapshot. */
  lemma ExactIsComplete(c: Codec, e: Evidence, v: string, s: string, digests: seq<Digest>, connectors: Registry,
                        now: Time, budget: nat, records: seq<Record>)
    requires AllAdmitted(c, e, v, s, Ascending(Elements(digests)), connectors, now, budget, records)
    requires digests != []
    ensures Resolve(c, e, v, s, digests, connectors, now, budget)
            == Snapshot(v, c.scopeId(v, s), Ascending(Elements(digests)), records, Complete, {})
  {
    GatherAll(c, e, v, s, Ascending(Elements(digests)), connectors, now, budget, records);
    assert digests[0] in Elements(digests);
  }

  /** The dependency a record gives rise to. */
  function DependencyOf(r: Record): Dependency {
    Dependency(r.payload, r.receiptId, r.summaryId, r.observedAt, r.expiresAt)
  }

  /** An admitted record and its dependency: still valid later exactly when admitted again, unchanged. */
  lemma RecordAgrees(c: Codec, e0: Evidence, e1: Evidence, v: string, s: string, d: Digest, connectors: Registry,
                     now0: Time, now1: Time, b0: nat, b1: nat, r: Record)
    requires CollisionFree(c) && b0 <= b1
    requires AdmitIn(c, e0, v, s, d, connectors, now0, b0) == Some(r)
    ensures r.payload == d
    ensures LapseIn(c, e1, v, s, DependencyOf(r), now1).None?
            <==> AdmitIn(c, e1, v, s, d, connectors, now1, b1) == Some(r)
  {
  }

  lemma RequestedIsPayloads(c: Codec, e: Evidence, v: string, s: string, digests: seq<Digest>, connectors: Registry,
                            now: Time, budget: nat)
    requires CollisionFree(c)
    requires Resolve(c, e, v, s, digests, connectors, now, budget).state == Complete
    ensures var snap := Resolve(c, e, v, s, digests, connectors, now, budget);
            Payloads(DependenciesOf(snap.records)) == snap.requested
  {
    var snap := Resolve(c, e, v, s, digests, connectors, now, budget);
    CompleteIsExact(c, e, v, s, digests, connectors, now, budget);
    forall i | 0 <= i < |snap.records| ensures snap.records[i].payload == snap.requested[i] {
      RecordAgrees(c, e, e, v, s, snap.requested[i], connectors, now, now, budget, budget, snap.records[i]);
    }
  }

  lemma PayloadsReresolve(c: Codec, e: Evidence, v: string, s: string, digests: seq<Digest>, connectors: Registry,
                          now: Time, budget: nat)
    requires CollisionFree(c)
    requires Resolve(c, e, v, s, digests, connectors, now, budget).state == Complete
    ensures var snap := Resolve(c, e, v, s, digests, connectors, now, budget);
            Payloads(DependenciesOf(snap.records)) == snap.requested
            && snap.requested != [] && Ascending(Elements(snap.requested)) == snap.requested
  {
    RequestedIsPayloads(c, e, v, s, digests, connectors, now, budget);
    AscendingUnique(Ascending(Elements(digests)));
  }

  /** Two ledger states in which the same records are admitted, seen through the recorded dependencies. */
  lemma RecordsAgree(c: Codec, e0: Evidence, e1: Evidence, v: string, s: string, ds: seq<Digest>, connectors: Registry,
                     now0: Time, now1: Time, b0: nat, b1: nat, records: seq<Record>)
    requires CollisionFree(c) && b0 <= b1
    requires AllAdmitted(c, e0, v, s, ds, connectors, now0, b0, records)
    ensures DependencyChanges(c, e1, v, s, DependenciesOf(records), now1) == []
            <==> AllAdmitted(c, e1, v, s, ds, connectors, now1, b1, records)
  {
    var deps := DependenciesOf(records);
    forall i | 0 <= i < |ds|
      ensures LapseIn(c, e1, v, s, deps[i], now1).None?
              <==> AdmitIn(c, e1, v, s, ds[i], connectors, now1, b1) == Some(records[i])
    {
      RecordAgrees(c, e0, e1, v, s, ds[i], connectors, now0, now1, b0, b1, records[i]);
      assert deps[i] == DependencyOf(records[i]);
    }
  }

  /**
   For a complete snapshot, resolved at any time under any budget: its dependencies hold in a later
   state of the ledger exactly when resolving them again, under any budget at least as large,
   returns the very same snapshot.
   */
  lemma CheckersAgree(c: Codec, e0: Evidence, e1: Evidence, v: string, s: string, digests: seq<Digest>,
                      connectors: Registry, now0: Time, now1: Time, b0: nat, b1: nat)
    requires CollisionFree(c) && b0 <= b1
    requires Resolve(c, e0, v, s, digests, connectors, now0, b0).state == Complete
    ensures var snap := Resolve(c, e0, v, s, digests, connectors, now0, b0);
            var deps := DependenciesOf(snap.records);
            DependencyChanges(c, e1, v, s, deps, now1) == []
            <==> Resolve(c, e1, v, s, Payloads(deps), connectors, now1, b1) == snap
  {
    var snap := Resolve(c, e0, v, s, digests, connectors, now0, b0);
    var ds := snap.requested;
    CompleteIsExact(c, e0, v, s, digests, connectors, now0, b0);
    PayloadsReresolve(c, e0, v, s, digests, connectors, now0, b0);
    RecordsAgree(c, e0, e1, v, s, ds, connectors, now0, now1, b0, b1, snap.records);
    if AllAdmitted(c, e1, v, s, ds, connectors, now1, b1, snap.records) {
      ExactIsComplete(c, e1, v, s, ds, connectors, now1, b1, snap.records);
    }
    if Resolve(c, e1, v, s, ds, connectors, now1, b1) == snap {
      CompleteIsExact(c, e1, v, s, ds, connectors, now1, b1);
    }
  }

  /** A complete snapshot is unchanged by any larger budget. */
  lemma CompleteIgnoresLargerBudget(c: Codec, e: Evidence, v: string, s: string, digests: seq<Digest>,
                                    connectors: Registry, now: Time, b0: nat, b1: nat)
    requires b0 <= b1
    requires Resolve(c, e, v, s, digests, connectors, now, b0).state == Complete
    ensures Resolve(c, e, v, s, digests, connectors, now, b1) == Resolve(c, e, v, s, digests, connectors, now, b0)
  {
    var snap := Resolve(c, e, v, s, digests, connectors, now, b0);
    CompleteIsExact(c, e, v, s, digests, connectors, now, b0);
    forall i | 0 <= i < |snap.requested|
      ensures AdmitIn(c, e, v, s, snap.requested[i], connectors, now, b1) == Some(snap.records[i])
    {
      assert AdmitIn(c, e, v, s, snap.requested[i], connectors, now, b0) == Some(snap.records[i]);
    }
    assert AllAdmitted(c, e, v, s, snap.requested, connectors, now, b1, snap.records);
    ExactIsComplete(c, e, v, s, digests, connectors, now, b1, snap.records);
  }

  // ------------------------------------------------------- over whole histories

  /** Where a snapshot came from: a state of the ledger, the references, the time and the budget. */
  datatype Origin = Origin(e: Evidence, digests: seq<Digest>, now: Time, budget: nat)

  function ResolvedAt(c: Codec, connectors: Registry, v: string, s: string, o: Origin): Snapshot {
    Resolve(c, o.e, v, s, o.digests, connectors, o.now, o.budget)
  }

  /** The complete snapshot came from resolving references in this session under this registry. */
  ghost predicate Originates(c: Codec, connectors: Registry, v: string, s: string, snap: Snapshot) {
    snap.state == Complete &&
    exists o: Origin :: o.budget <= DEFAULT_BUDGET && snap == ResolvedAt(c, connectors, v, s, o)
  }

  ghost predicate RecordedFrom(c: Codec, a: Assessment, snap: Snapshot) {
    a.snapshotId == c.snapshotId(snap) && a.deps == DependenciesOf(snap.records)
  }

  ghost predicate RowOriginates(c: Codec, connectors: Registry, k: Key, a: Assessment) {
    exists snap :: Originates(c, connectors, k.vertical, k.scope, snap) && RecordedFrom(c, a, snap)
  }

  /** The registry does not change: plans and checks all use it. */
  ghost predicate UnderRegistry(c: Codec, connectors: Registry, op: Op) {
    match op
    case OpRegister(key, _, snap, _) => Originates(c, connectors, key.vertical, key.scope, snap)
    case OpStatus(_, _, used) => used == connectors
    case _ => true
  }

  /** The row records a resolved snapshot and no reason that only the resolving check could give. */
  ghost predicate LocalRow(c: Codec, connectors: Registry, k: Key, a: Assessment) {
    RowOriginates(c, connectors, k, a) && forall ch | ch in a.reasons :: ch.reason != EvidenceAdmissionChanged
  }

  ghost predicate NoAdmissionChange(c: Codec, connectors: Registry, db: Db) {
    forall k | k in db.assessments :: LocalRow(c, connectors, k, db.assessments[k])
  }

  lemma {:induction false} ChangesAreLocal(c: Codec, e: Evidence, v: string, s: string, deps: seq<Dependency>,
                                           now: Time)
    ensures forall ch | ch in DependencyChanges(c, e, v, s, deps, now) :: ch.reason != EvidenceAdmissionChanged
  {
    if deps != [] { ChangesAreLocal(c, e, v, s, deps[..|deps| - 1], now); }
  }

  /** A check under the same registry finds what the dependencies and the clock say, nothing more. */
  lemma FindingsAreLocal(c: Codec, connectors: Registry, e: Evidence, k: Key, a: Assessment, now: Time)
    requires CollisionFree(c) && RowOriginates(c, connectors, k, a)
    ensures Findings(c, e, k, a, now, Some(connectors)) == LocalFindings(c, e, k, a, now)
  {
    hide CollisionFree, Resolve, DependencyChanges, DependenciesOf, Payloads;
    if LocalFindings(c, e, k, a, now) == [] {
      var snap :| Originates(c, connectors, k.vertical, k.scope, snap) && RecordedFrom(c, a, snap);
      var o: Origin :| o.budget <= DEFAULT_BUDGET && snap == ResolvedAt(c, connectors, k.vertical, k.scope, o);
      assert DependencyChanges(c, e, k.vertical, k.scope, a.deps, now) == [];
      CheckersAgree(c, o.e, e, k.vertical, k.scope, o.digests, connectors, o.now, now, o.budget, DEFAULT_BUDGET);
    }
  }

  lemma CheckedKeepsLocal(c: Codec, connectors: Registry, e: Evidence, k: Key, a: Assessment, now: Time,
                          used: Option<Registry>)
    requires CollisionFree(c) && LocalRow(c, connectors, k, a)
    requires used == None || used == Some(connectors)
    ensures LocalRow(c, connectors, k, Checked(c, e, k, a, now, used))
  {
    hide CollisionFree, Originates, Resolve, DependencyChanges, DependenciesOf, Payloads;
    FindingsAreLocal(c, connectors, e, k, a, now);
    ChangesAreLocal(c, e, k.vertical, k.scope, a.deps, now);
    var snap :| Originates(c, connectors, k.vertical, k.scope, snap) && RecordedFrom(c, a, snap);
    assert RecordedFrom(c, Checked(c, e, k, a, now, used), snap);
  }

  lemma CheckKeepsLocal(c: Codec, connectors: Registry, db: Db, k: Key, now: Time, used: Option<Registry>)
    requires CollisionFree(c) && NoAdmissionChange(c, connectors, db)
    requires used == None || used == Some(connectors)
    ensures NoAdmissionChange(c, connectors, Check(c, db, k, now, used).0)
  {
    hide LocalRow, Checked;
    if k in db.assessments {
      CheckedKeepsLocal(c, connectors, db.evidence, k, db.assessments[k], now, used);
    }
  }

  lemma SweptKeepsLocal(c: Codec, connectors: Registry, e: Evidence, k: Key, a: Assessment, v: string, s: string,
                        d: Digest)
    requires LocalRow(c, connectors, k, a)
    ensures LocalRow(c, connectors, k, Swept(c, e, k, a, v, s, d))
  {
    hide Originates, DependencyChanges, DependenciesOf;
    var snap :| Originates(c, connectors, k.vertical, k.scope, snap) && RecordedFrom(c, a, snap);
    assert RecordedFrom(c, Swept(c, e, k, a, v, s, d), snap);
    if Mentions(a.deps, d) {
      var selected := Selected(a.deps, d);
      ChangesAreLocal(c, e, v, s, selected, selected[0].observedAt);
    }
  }

  lemma InvalidateKeepsLocal(c: Codec, connectors: Registry, db: Db, v: string, s: string, d: Digest)
    requires NoAdmissionChange(c, connectors, db)
    ensures NoAdmissionChange(c, connectors, Invalidate(c, db, v, s, d))
  {
    forall k | k in db.assessments
      ensures LocalRow(c, connectors, k, Swept(c, db.evidence, k, db.assessments[k], v, s, d))
    {
      SweptKeepsLocal(c, connectors, db.evidence, k, db.assessments[k], v, s, d);
    }
  }

  lemma {:induction false} WithdrawAllKeepsLocal(c: Codec, connectors: Registry, db: Db, v: string, s: string,
                                                 ds: seq<Digest>, now: Time)
    requires NoAdmissionChange(c, connectors, db)
    ensures NoAdmissionChange(c, connectors, WithdrawAll(c, db, v, s, ds, now))
  {
    if ds != [] {
      var mid := WithdrawAll(c, db, v, s, ds[..|ds| - 1], now);
      WithdrawAllKeepsLocal(c, connectors, db, v, s, ds[..|ds| - 1], now);
      var k := Key(v, s, ds[|ds| - 1]);
      var e := if k in mid.evidence.withdrawals then mid.evidence
               else mid.evidence.(withdrawals := mid.evidence.withdrawals[k := now]);
      InvalidateKeepsLocal(c, connectors, mid.(evidence := e), v, s, ds[|ds| - 1]);
    }
  }

  lemma InsertedKeepsLocal(c: Codec, connectors: Registry, db: Db, k: Key, kind: Kind, snap: Snapshot, now: Time)
    requires NoAdmissionChange(c, connectors, db) && Originates(c, connectors, k.vertical, k.scope, snap)
    ensures NoAdmissionChange(c, connectors, Inserted(c, db, k, kind, snap, now))
  {
    hide Originates;
    forall o | o in Inserted(c, db, k, kind, snap, now).assessments
      ensures LocalRow(c, connectors, o, Inserted(c, db, k, kind, snap, now).assessments[o])
    {
      if o == k {
        assert RecordedFrom(c, Inserted(c, db, k, kind, snap, now).assessments[k], snap);
      }
    }
  }

  lemma RegisterKeepsLocal(c: Codec, connectors: Registry, db: Db, k: Key, kind: Kind, snap: Snapshot, r: Reading)
    requires CollisionFree(c) && NoAdmissionChange(c, connectors, db)
    requires Originates(c, connectors, k.vertical, k.scope, snap)
    ensures NoAdmissionChange(c, connectors, Register(c, db, k, kind, snap, r).0)
  {
    hide NoAdmissionChange, Check, Originates;
    if RegistrationError(c, db, k, kind, snap, r).None? {
      CheckKeepsLocal(c, connectors, db, k, r.now, None);
      InsertedKeepsLocal(c, connectors, db, k, kind, snap, r.now);
      CheckKeepsLocal(c, connectors, Inserted(c, db, k, kind, snap, r.now), k, r.now, None);
    }
  }

  lemma ApplyKeepsLocal(c: Codec, connectors: Registry, db: Db, op: Op)
    requires CollisionFree(c) && NoAdmissionChange(c, connectors, db) && UnderRegistry(c, connectors, op)
    ensures NoAdmissionChange(c, connectors, Apply(c, db, op).0)
  {
    hide LocalRow, Originates;
    match op
    case OpPut(receipt, summary) =>
      var b := receipt.basis;
      var e := db.evidence.(observations := db.evidence.observations[receipt.id := Row(b, summary)]);
      InvalidateKeepsLocal(c, connectors, db.(evidence := e), b.vertical, b.scope, b.payload);
    case OpWithdraw(v, s, digests, reading) =>
      if reading.At? { WithdrawAllKeepsLocal(c, connectors, db, v, s, Ascending(Elements(digests)), reading.now); }
    case OpRegister(key, kind, snap, reading) => RegisterKeepsLocal(c, connectors, db, key, kind, snap, reading);
    case OpStatus(key, reading, used) =>
      if reading.At? { CheckKeepsLocal(c, connectors, db, key, reading.now, Some(used)); }
  }

  /** While the registry stands still, no history records EVIDENCE_ADMISSION_CHANGED. */
  lemma {:induction false} AdmissionCheckNeverFires(c: Codec, connectors: Registry, ops: seq<Op>, k: Key)
    requires CollisionFree(c)
    requires forall i | 0 <= i < |ops| :: UnderRegistry(c, connectors, ops[i])
    ensures NoAdmissionChange(c, connectors, Run(c, EMPTY_DB, ops))
    ensures k in Run(c, EMPTY_DB, ops).assessments ==>
              forall ch | ch in Run(c, EMPTY_DB, ops).assessments[k].reasons :: ch.reason != EvidenceAdmissionChanged
  {
    if ops != [] {
      AdmissionCheckNeverFires(c, connectors, ops[..|ops| - 1], k);
      ApplyKeepsLocal(c, connectors, Run(c, EMPTY_DB, ops[..|ops| - 1]), ops[|ops| - 1]);
    }
  }
}
