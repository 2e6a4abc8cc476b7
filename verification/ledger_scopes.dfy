/**
 Sessions do not observe each other. The ledger seen from one (vertical, session) pair evolves
 under the operations of that pair alone: deleting every other operation from a history changes no
 lookup, no status and no capacity decision. Receipt identifiers are a single key for all sessions;
 what keeps sessions apart is that a genuine identifier fixes its session.
 */
module LedgerScopes {
  import opened Prelude
  import opened Ledger
  import opened LedgerSafety

  function EvidenceOf(e: Evidence, v: string, s: string): Evidence {
    Evidence(
      map id | id in e.observations && e.observations[id].basis.vertical == v && e.observations[id].basis.scope == s
        :: e.observations[id],
      map w | w in e.withdrawals && w.vertical == v && w.scope == s :: e.withdrawals[w])
  }

  /** The part of the ledger that belongs to one session. */
  function View(db: Db, v: string, s: string): Db {
    Db(EvidenceOf(db.evidence, v, s),
       map k | k in db.assessments && k.vertical == v && k.scope == s :: db.assessments[k])
  }

  predicate Belongs(op: Op, v: string, s: string) {
    match op
    case OpPut(receipt, _) => receipt.basis.vertical == v && receipt.basis.scope == s
    case OpWithdraw(ov, os, _, _) => ov == v && os == s
    case OpRegister(key, _, _, _) => key.vertical == v && key.scope == s
    case OpStatus(key, _, _) => key.vertical == v && key.scope == s
  }

  /** The operations of one session, in their original order. */
  function Purge(ops: seq<Op>, v: string, s: string): (r: seq<Op>)
    ensures forall x :: x in r <==> x in ops && Belongs(x, v, s)
  {
    if ops == [] then []
    else
      var before := Purge(ops[..|ops| - 1], v, s);
      assert ops == ops[..|ops| - 1] + [ops[|ops| - 1]];
      if Belongs(ops[|ops| - 1], v, s) then before + [ops[|ops| - 1]] else before
  }

  // ------------------------------------------------ lookups read one session

  /** Both evidence tables agree on everything a lookup in (v, s) reads. */
  ghost predicate Agree(e: Evidence, f: Evidence, v: string, s: string) {
    forall d :: Slice(e, v, s, d) == Slice(f, v, s, d) && Withdrawn(e, v, s, d) == Withdrawn(f, v, s, d)
  }

  lemma ViewAgrees(e: Evidence, v: string, s: string)
    ensures Agree(e, EvidenceOf(e, v, s), v, s)
  {
  }

  lemma {:induction false} ChangesAgree(c: Codec, e: Evidence, f: Evidence, v: string, s: string, deps: seq<Dependency>,
                                        now: Time)
    requires Agree(e, f, v, s)
    ensures DependencyChanges(c, e, v, s, deps, now) == DependencyChanges(c, f, v, s, deps, now)
  {
    if deps != [] {
      ChangesAgree(c, e, f, v, s, deps[..|deps| - 1], now);
      var d := deps[|deps| - 1].payload;
      assert Slice(e, v, s, d) == Slice(f, v, s, d) && Withdrawn(e, v, s, d) == Withdrawn(f, v, s, d);
    }
  }

  lemma {:induction false} GatherAgrees(c: Codec, e: Evidence, f: Evidence, v: string, s: string, ds: seq<Digest>,
                                        connectors: Registry, now: Time, budget: nat)
    requires Agree(e, f, v, s)
    ensures Gather(c, e, v, s, ds, connectors, now, budget) == Gather(c, f, v, s, ds, connectors, now, budget)
  {
    if ds != [] {
      GatherAgrees(c, e, f, v, s, ds[..|ds| - 1], connectors, now, budget);
      var d := ds[|ds| - 1];
      assert Slice(e, v, s, d) == Slice(f, v, s, d) && Withdrawn(e, v, s, d) == Withdrawn(f, v, s, d);
    }
  }

  lemma ResolveAgrees(c: Codec, e: Evidence, f: Evidence, v: string, s: string, digests: seq<Digest>,
                      connectors: Registry, now: Time, budget: nat)
    requires Agree(e, f, v, s)
    ensures Resolve(c, e, v, s, digests, connectors, now, budget)
            == Resolve(c, f, v, s, digests, connectors, now, budget)
  {
    GatherAgrees(c, e, f, v, s, Ascending(Elements(digests)), connectors, now, budget);
  }

  lemma CheckedAgrees(c: Codec, e: Evidence, f: Evidence, k: Key, a: Assessment, now: Time,
                      connectors: Option<Registry>)
    requires Agree(e, f, k.vertical, k.scope)
    ensures Checked(c, e, k, a, now, connectors) == Checked(c, f, k, a, now, connectors)
    ensures Unreadable(c, e, k, a, now, connectors) == Unreadable(c, f, k, a, now, connectors)
  {
    ChangesAgree(c, e, f, k.vertical, k.scope, a.deps, now);
    if connectors.Some? {
      ResolveAgrees(c, e, f, k.vertical, k.scope, Payloads(a.deps), connectors.value, now, DEFAULT_BUDGET);
    }
  }

  lemma SweptAgrees(c: Codec, e: Evidence, f: Evidence, k: Key, a: Assessment, v: string, s: string, d: Digest)
    requires Agree(e, f, v, s)
    ensures Swept(c, e, k, a, v, s, d) == Swept(c, f, k, a, v, s, d)
  {
    if k.vertical == v && k.scope == s && !a.invalidated && Mentions(a.deps, d) {
      var selected := Selected(a.deps, d);
      ChangesAgree(c, e, f, v, s, selected, selected[0].observedAt);
    }
  }

  // --------------------------------------------------- operations of the session

  lemma InvalidateInView(c: Codec, db: Db, v: string, s: string, d: Digest)
    ensures View(Invalidate(c, db, v, s, d), v, s) == Invalidate(c, View(db, v, s), v, s, d)
  {
    ViewAgrees(db.evidence, v, s);
    var left, right := View(Invalidate(c, db, v, s, d), v, s), Invalidate(c, View(db, v, s), v, s, d);
    assert left.assessments.Keys == right.assessments.Keys;
    forall k | k in left.assessments ensures left.assessments[k] == right.assessments[k] {
      SweptAgrees(c, db.evidence, EvidenceOf(db.evidence, v, s), k, db.assessments[k], v, s, d);
    }
    assert left.assessments == right.assessments;
  }

  lemma PutInView(c: Codec, db: Db, receipt: Receipt, summary: Summary)
    ensures var v, s := receipt.basis.vertical, receipt.basis.scope;
            && View(Put(c, db, receipt, summary).0, v, s) == Put(c, View(db, v, s), receipt, summary).0
            && Put(c, db, receipt, summary).1 == Put(c, View(db, v, s), receipt, summary).1
  {
    var b := receipt.basis;
    var e := db.evidence.(observations := db.evidence.observations[receipt.id := Row(b, summary)]);
    var view := View(db, b.vertical, b.scope);
    var f := view.evidence.(observations := view.evidence.observations[receipt.id := Row(b, summary)]);
    assert EvidenceOf(e, b.vertical, b.scope) == f;
    assert View(db.(evidence := e), b.vertical, b.scope) == view.(evidence := f);
    InvalidateInView(c, db.(evidence := e), b.vertical, b.scope, b.payload);
  }

  lemma WithdrawOneInView(c: Codec, db: Db, v: string, s: string, d: Digest, now: Time)
    ensures View(WithdrawOne(c, db, v, s, d, now), v, s) == WithdrawOne(c, View(db, v, s), v, s, d, now)
  {
    var k := Key(v, s, d);
    var view := View(db, v, s);
    var e := if k in db.evidence.withdrawals then db.evidence
             else db.evidence.(withdrawals := db.evidence.withdrawals[k := now]);
    var f := if k in view.evidence.withdrawals then view.evidence
             else view.evidence.(withdrawals := view.evidence.withdrawals[k := now]);
    assert EvidenceOf(e, v, s) == f;
    assert View(db.(evidence := e), v, s) == view.(evidence := f);
    InvalidateInView(c, db.(evidence := e), v, s, d);
  }

  lemma {:induction false} WithdrawAllInView(c: Codec, db: Db, v: string, s: string, ds: seq<Digest>, now: Time)
    ensures View(WithdrawAll(c, db, v, s, ds, now), v, s) == WithdrawAll(c, View(db, v, s), v, s, ds, now)
  {
    if ds != [] {
      WithdrawAllInView(c, db, v, s, ds[..|ds| - 1], now);
      WithdrawOneInView(c, WithdrawAll(c, db, v, s, ds[..|ds| - 1], now), v, s, ds[|ds| - 1], now);
    }
  }

  lemma WithdrawInView(c: Codec, db: Db, v: string, s: string, digests: seq<Digest>, r: Reading)
    ensures View(Withdraw(c, db, v, s, digests, r).0, v, s) == Withdraw(c, View(db, v, s), v, s, digests, r).0
    ensures Withdraw(c, db, v, s, digests, r).1 == Withdraw(c, View(db, v, s), v, s, digests, r).1
  {
    ViewAgrees(db.evidence, v, s);
    assert forall d :: Held(db.evidence, v, s, d) == Held(View(db, v, s).evidence, v, s, d);
    assert WithdrawalError(db, v, s, digests, r) == WithdrawalError(View(db, v, s), v, s, digests, r);
    if r.At? {
      WithdrawAllInView(c, db, v, s, Ascending(Elements(digests)), r.now);
    }
  }

  lemma CheckInView(c: Codec, db: Db, k: Key, now: Time, connectors: Option<Registry>)
    ensures View(Check(c, db, k, now, connectors).0, k.vertical, k.scope)
            == Check(c, View(db, k.vertical, k.scope), k, now, connectors).0
    ensures Check(c, db, k, now, connectors).1 == Check(c, View(db, k.vertical, k.scope), k, now, connectors).1
  {
    if k in db.assessments {
      ViewAgrees(db.evidence, k.vertical, k.scope);
      CheckedAgrees(c, db.evidence, EvidenceOf(db.evidence, k.vertical, k.scope), k, db.assessments[k], now,
                    connectors);
      var left := View(Check(c, db, k, now, connectors).0, k.vertical, k.scope);
      var right := Check(c, View(db, k.vertical, k.scope), k, now, connectors).0;
      assert left.assessments == right.assessments;
    }
  }

  lemma InsertedInView(c: Codec, db: Db, k: Key, kind: Kind, snap: Snapshot, now: Time)
    ensures View(Inserted(c, db, k, kind, snap, now), k.vertical, k.scope)
            == Inserted(c, View(db, k.vertical, k.scope), k, kind, snap, now)
  {
  }

  lemma RegistrationErrorInView(c: Codec, db: Db, k: Key, kind: Kind, snap: Snapshot, r: Reading)
    ensures RegistrationError(c, db, k, kind, snap, r)
            == RegistrationError(c, View(db, k.vertical, k.scope), k, kind, snap, r)
  {
    assert InScope(db, k.vertical, k.scope) == InScope(View(db, k.vertical, k.scope), k.vertical, k.scope);
  }

  lemma RegisterNewInView(c: Codec, db: Db, k: Key, kind: Kind, snap: Snapshot, now: Time)
    ensures View(RegisterNew(c, db, k, kind, snap, now).0, k.vertical, k.scope)
            == RegisterNew(c, View(db, k.vertical, k.scope), k, kind, snap, now).0
    ensures RegisterNew(c, db, k, kind, snap, now).1
            == RegisterNew(c, View(db, k.vertical, k.scope), k, kind, snap, now).1
  {
    InsertedInView(c, db, k, kind, snap, now);
    CheckInView(c, Inserted(c, db, k, kind, snap, now), k, now, None);
  }

  lemma RegisterInView(c: Codec, db: Db, k: Key, kind: Kind, snap: Snapshot, r: Reading)
    ensures View(Register(c, db, k, kind, snap, r).0, k.vertical, k.scope)
            == Register(c, View(db, k.vertical, k.scope), k, kind, snap, r).0
    ensures Register(c, db, k, kind, snap, r).1 == Register(c, View(db, k.vertical, k.scope), k, kind, snap, r).1
  {
    RegistrationErrorInView(c, db, k, kind, snap, r);
    if r.At? {
      CheckInView(c, db, k, r.now, None);
      RegisterNewInView(c, db, k, kind, snap, r.now);
    }
  }

  /** An operation of the session does to the view, and reports, what it would on the view alone. */
  lemma OwnOperation(c: Codec, db: Db, op: Op, v: string, s: string)
    requires Belongs(op, v, s)
    ensures View(Apply(c, db, op).0, v, s) == Apply(c, View(db, v, s), op).0
    ensures Apply(c, db, op).1 == Apply(c, View(db, v, s), op).1
  {
    match op
    case OpPut(receipt, summary) => PutInView(c, db, receipt, summary);
    case OpWithdraw(_, _, digests, reading) => WithdrawInView(c, db, v, s, digests, reading);
    case OpRegister(key, kind, snap, reading) => RegisterInView(c, db, key, kind, snap, reading);
    case OpStatus(key, reading, connectors) =>
      if reading.At? { CheckInView(c, db, key, reading.now, Some(connectors)); }
  }

  // --------------------------------------------------- operations of other sessions

  lemma InvalidateElsewhere(c: Codec, db: Db, ov: string, os: string, d: Digest, v: string, s: string)
    requires !(ov == v && os == s)
    ensures View(Invalidate(c, db, ov, os, d), v, s) == View(db, v, s)
  {
  }

  lemma StoreElsewhere(c: Codec, e: Evidence, receipt: Receipt, summary: Summary, v: string, s: string)
    requires CollisionFree(c) && RowsGenuine(c, e) && receipt.id == c.receiptId(receipt.basis)
    requires !(receipt.basis.vertical == v && receipt.basis.scope == s)
    ensures EvidenceOf(e.(observations := e.observations[receipt.id := Row(receipt.basis, summary)]), v, s)
            == EvidenceOf(e, v, s)
  {
    var id := receipt.id;
    assert id in e.observations ==> e.observations[id].basis == receipt.basis;
    hide CollisionFree, RowsGenuine;
    var after := e.(observations := e.observations[id := Row(receipt.basis, summary)]);
    assert EvidenceOf(after, v, s).observations == EvidenceOf(e, v, s).observations;
  }

  lemma PutElsewhere(c: Codec, db: Db, receipt: Receipt, summary: Summary, v: string, s: string)
    requires CollisionFree(c) && RowsGenuine(c, db.evidence) && receipt.id == c.receiptId(receipt.basis)
    requires !(receipt.basis.vertical == v && receipt.basis.scope == s)
    ensures View(Put(c, db, receipt, summary).0, v, s) == View(db, v, s)
  {
    var b := receipt.basis;
    var e := db.evidence.(observations := db.evidence.observations[receipt.id := Row(b, summary)]);
    StoreElsewhere(c, db.evidence, receipt, summary, v, s);
    InvalidateElsewhere(c, db.(evidence := e), b.vertical, b.scope, b.payload, v, s);
  }

  lemma {:induction false} WithdrawAllElsewhere(c: Codec, db: Db, ov: string, os: string, ds: seq<Digest>, now: Time,
                                                v: string, s: string)
    requires !(ov == v && os == s)
    ensures View(WithdrawAll(c, db, ov, os, ds, now), v, s) == View(db, v, s)
  {
    if ds != [] {
      var mid := WithdrawAll(c, db, ov, os, ds[..|ds| - 1], now);
      WithdrawAllElsewhere(c, db, ov, os, ds[..|ds| - 1], now, v, s);
      var k := Key(ov, os, ds[|ds| - 1]);
      var e := if k in mid.evidence.withdrawals then mid.evidence
               else mid.evidence.(withdrawals := mid.evidence.withdrawals[k := now]);
      assert EvidenceOf(e, v, s) == EvidenceOf(mid.evidence, v, s);
      InvalidateElsewhere(c, mid.(evidence := e), ov, os, ds[|ds| - 1], v, s);
    }
  }

  lemma CheckElsewhere(c: Codec, db: Db, k: Key, now: Time, connectors: Option<Registry>, v: string, s: string)
    requires !(k.vertical == v && k.scope == s)
    ensures View(Check(c, db, k, now, connectors).0, v, s) == View(db, v, s)
  {
  }

  lemma InsertedElsewhere(c: Codec, db: Db, k: Key, kind: Kind, snap: Snapshot, now: Time, v: string, s: string)
    requires !(k.vertical == v && k.scope == s)
    ensures View(Inserted(c, db, k, kind, snap, now), v, s) == View(db, v, s)
  {
  }

  lemma RegisterElsewhere(c: Codec, db: Db, k: Key, kind: Kind, snap: Snapshot, r: Reading, v: string, s: string)
    requires !(k.vertical == v && k.scope == s)
    ensures View(Register(c, db, k, kind, snap, r).0, v, s) == View(db, v, s)
  {
    if RegistrationError(c, db, k, kind, snap, r).None? {
      CheckElsewhere(c, db, k, r.now, None, v, s);
      InsertedElsewhere(c, db, k, kind, snap, r.now, v, s);
      CheckElsewhere(c, Inserted(c, db, k, kind, snap, r.now), k, r.now, None, v, s);
    }
  }

  /** An operation of another session leaves the view as it was. */
  lemma ForeignOperation(c: Codec, db: Db, op: Op, v: string, s: string)
    requires CollisionFree(c) && RowsGenuine(c, db.evidence) && Genuine(c, op)
    requires !Belongs(op, v, s)
    ensures View(Apply(c, db, op).0, v, s) == View(db, v, s)
  {
    match op
    case OpPut(receipt, summary) => PutElsewhere(c, db, receipt, summary, v, s);
    case OpWithdraw(ov, os, digests, reading) =>
      if reading.At? { WithdrawAllElsewhere(c, db, ov, os, Ascending(Elements(digests)), reading.now, v, s); }
    case OpRegister(key, kind, snap, reading) => RegisterElsewhere(c, db, key, kind, snap, reading, v, s);
    case OpStatus(key, reading, connectors) =>
      if reading.At? { CheckElsewhere(c, db, key, reading.now, Some(connectors), v, s); }
  }

  // ------------------------------------------------------------ whole histories

  /** The session's part of the ledger after a history is that of its own operations alone. */
  lemma {:induction false} HistoryOfSession(c: Codec, db: Db, ops: seq<Op>, v: string, s: string)
    requires CollisionFree(c) && Sound(c, db)
    requires forall i | 0 <= i < |ops| :: Genuine(c, ops[i])
    ensures View(Run(c, db, ops), v, s) == Run(c, View(db, v, s), Purge(ops, v, s))
  {
    if ops != [] {
      var prefix, op := ops[..|ops| - 1], ops[|ops| - 1];
      HistoryOfSession(c, db, prefix, v, s);
      RunKeeps(c, db, prefix);
      if Belongs(op, v, s) {
        OwnOperation(c, Run(c, db, prefix), op, v, s);
        var purged := Purge(prefix, v, s) + [op];
        assert purged[..|purged| - 1] == Purge(prefix, v, s);
      } else {
        ForeignOperation(c, Run(c, db, prefix), op, v, s);
      }
    }
  }

  lemma CachedInView(e: Evidence, v: string, connectorId: string, s: string, queryHash: Digest, now: Time)
    ensures Cached(e, v, connectorId, s, queryHash, now)
            == Cached(EvidenceOf(e, v, s), v, connectorId, s, queryHash, now)
  {
    assert QueryRows(e, v, connectorId, s, queryHash) == QueryRows(EvidenceOf(e, v, s), v, connectorId, s, queryHash);
  }

  /**
   Whatever other sessions did, the next operation of this session reports the same outcome, evidence
   resolution returns the same snapshot and the cache the same row as if they had done nothing.
   */
  lemma SessionsDoNotInterfere(c: Codec, ops: seq<Op>, next: Op, v: string, s: string, digests: seq<Digest>,
                               connectors: Registry, connectorId: string, queryHash: Digest, now: Time, budget: nat)
    requires CollisionFree(c)
    requires forall i | 0 <= i < |ops| :: Genuine(c, ops[i])
    requires Belongs(next, v, s)
    ensures var mixed, alone := Run(c, EMPTY_DB, ops), Run(c, EMPTY_DB, Purge(ops, v, s));
            && Apply(c, mixed, next).1 == Apply(c, alone, next).1
            && Resolve(c, mixed.evidence, v, s, digests, connectors, now, budget)
               == Resolve(c, alone.evidence, v, s, digests, connectors, now, budget)
            && Cached(mixed.evidence, v, connectorId, s, queryHash, now)
               == Cached(alone.evidence, v, connectorId, s, queryHash, now)
  {
    var mixed, alone := Run(c, EMPTY_DB, ops), Run(c, EMPTY_DB, Purge(ops, v, s));
    HistoryOfSession(c, EMPTY_DB, ops, v, s);
    assert View(EMPTY_DB, v, s) == EMPTY_DB;
    OwnOperation(c, mixed, next, v, s);
    ViewAgrees(mixed.evidence, v, s);
    ResolveAgrees(c, mixed.evidence, alone.evidence, v, s, digests, connectors, now, budget);
    CachedInView(mixed.evidence, v, connectorId, s, queryHash, now);
  }
}
