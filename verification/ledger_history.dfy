/**
 How assessments and withdrawals evolve over a run: nothing is forgotten, invalidation is final
 and its reasons are frozen, and check times only move forward.
 */
module LedgerHistory {
  import opened Prelude
  import opened Ledger
  import opened LedgerSafety

  /** The later form of one assessment row. */
  ghost predicate Later(a: Assessment, b: Assessment) {
    && b.kind == a.kind && b.snapshotId == a.snapshotId && b.deps == a.deps && b.assessedAt == a.assessedAt
    && b.lastCheckedAt >= a.lastCheckedAt
    && (a.invalidated ==> b.invalidated && b.reasons == a.reasons)
  }

  ghost predicate Extends(before: Db, after: Db) {
    && (forall k | k in before.assessments ::
          k in after.assessments && Later(before.assessments[k], after.assessments[k]))
    && (forall w | w in before.evidence.withdrawals ::
          w in after.evidence.withdrawals && after.evidence.withdrawals[w] == before.evidence.withdrawals[w])
  }

  lemma ExtendsTransitive(a: Db, b: Db, d: Db)
    requires Extends(a, b) && Extends(b, d)
    ensures Extends(a, d)
  {
  }

  lemma PutExtends(c: Codec, db: Db, receipt: Receipt, summary: Summary)
    ensures Extends(db, Put(c, db, receipt, summary).0)
  {
  }

  lemma {:induction false} WithdrawAllExtends(c: Codec, db: Db, v: string, s: string, ds: seq<Digest>, now: Time)
    ensures Extends(db, WithdrawAll(c, db, v, s, ds, now))
  {
    if ds != [] {
      var mid := WithdrawAll(c, db, v, s, ds[..|ds| - 1], now);
      WithdrawAllExtends(c, db, v, s, ds[..|ds| - 1], now);
      ExtendsTransitive(db, mid, WithdrawAll(c, db, v, s, ds, now));
    }
  }

  lemma CheckExtends(c: Codec, db: Db, k: Key, now: Time, connectors: Option<Registry>)
    requires Latched(db)
    ensures Extends(db, Check(c, db, k, now, connectors).0)
  {
  }

  lemma InsertedExtends(c: Codec, db: Db, k: Key, kind: Kind, snap: Snapshot, now: Time)
    requires Latched(db) && k !in db.assessments
    ensures Latched(Inserted(c, db, k, kind, snap, now)) && Extends(db, Inserted(c, db, k, kind, snap, now))
  {
  }

  lemma RegisterExtends(c: Codec, db: Db, k: Key, kind: Kind, snap: Snapshot, r: Reading)
    requires Latched(db)
    ensures Extends(db, Register(c, db, k, kind, snap, r).0)
  {
    var after := Register(c, db, k, kind, snap, r).0;
    if after == db {
    } else if k in db.assessments {
      CheckExtends(c, db, k, r.now, None);
    } else {
      var inserted := Inserted(c, db, k, kind, snap, r.now);
      InsertedExtends(c, db, k, kind, snap, r.now);
      CheckExtends(c, inserted, k, r.now, None);
      ExtendsTransitive(db, inserted, Check(c, inserted, k, r.now, None).0);
    }
  }

  lemma ApplyExtends(c: Codec, db: Db, op: Op)
    requires Latched(db)
    ensures Extends(db, Apply(c, db, op).0)
  {
    match op
    case OpPut(receipt, summary) => PutExtends(c, db, receipt, summary);
    case OpWithdraw(v, s, digests, reading) =>
      if Apply(c, db, op).1.Done? {
        WithdrawAllExtends(c, db, v, s, Ascending(Elements(digests)), reading.now);
      }
    case OpRegister(key, kind, snap, reading) => RegisterExtends(c, db, key, kind, snap, reading);
    case OpStatus(key, reading, connectors) =>
      if reading.At? { CheckExtends(c, db, key, reading.now, Some(connectors)); }
  }

  /** Over any run no assessment or withdrawal is lost, and an invalidated assessment keeps its reasons. */
  lemma {:induction false} RunExtends(c: Codec, db: Db, ops: seq<Op>)
    requires CollisionFree(c) && Sound(c, db)
    requires forall i | 0 <= i < |ops| :: Genuine(c, ops[i])
    ensures Extends(db, Run(c, db, ops))
  {
    if ops != [] {
      var mid := Run(c, db, ops[..|ops| - 1]);
      RunExtends(c, db, ops[..|ops| - 1]);
      RunKeeps(c, db, ops[..|ops| - 1]);
      ApplyExtends(c, mid, ops[|ops| - 1]);
      ExtendsTransitive(db, mid, Run(c, db, ops));
    }
  }

  lemma {:induction false} RunAppend(c: Codec, db: Db, xs: seq<Op>, ys: seq<Op>)
    ensures Run(c, db, xs + ys) == Run(c, Run(c, db, xs), ys)
  {
    if ys == [] {
      assert xs + ys == xs;
    } else {
      assert (xs + ys)[..|xs + ys| - 1] == xs + ys[..|ys| - 1];
      RunAppend(c, db, xs, ys[..|ys| - 1]);
    }
  }

  /** What the operation at position `i` of a run reports. */
  ghost function OutcomeAt(c: Codec, db: Db, ops: seq<Op>, i: nat): Outcome
    requires i < |ops|
  {
    Apply(c, Run(c, db, ops[..i]), ops[i]).1
  }

  /** The operation checks the assessment `k`, at registration or on request. */
  ghost predicate Checks(op: Op, k: Key) {
    (op.OpRegister? && op.key == k) || (op.OpStatus? && op.key == k)
  }

  /** The status agrees with the row it leaves behind, which is dated no earlier than before. */
  ghost predicate Reflects(before: Db, after: Db, outcome: Outcome, k: Key)
    requires outcome.Status?
  {
    && k in after.assessments
    && outcome.current == !after.assessments[k].invalidated
    && outcome.changes == after.assessments[k].reasons
    && after.assessments[k].lastCheckedAt >= outcome.checkedAt
    && (k in before.assessments ==> after.assessments[k].lastCheckedAt >= before.assessments[k].lastCheckedAt)
    && (outcome.current && k in before.assessments ==> outcome.checkedAt >= before.assessments[k].lastCheckedAt)
  }

  lemma CheckReflects(c: Codec, db: Db, k: Key, now: Time, connectors: Option<Registry>)
    requires Latched(db) && Check(c, db, k, now, connectors).1.Status?
    ensures Reflects(db, Check(c, db, k, now, connectors).0, Check(c, db, k, now, connectors).1, k)
  {
  }

  lemma StatusReflectsRow(c: Codec, db: Db, op: Op, k: Key)
    requires Latched(db) && Checks(op, k) && Apply(c, db, op).1.Status?
    ensures Reflects(db, Apply(c, db, op).0, Apply(c, db, op).1, k)
  {
    if op.OpStatus? {
      CheckReflects(c, db, k, op.reading.now, Some(op.connectors));
    } else if k in db.assessments {
      CheckReflects(c, db, k, op.reading.now, None);
    } else {
      var inserted := Inserted(c, db, k, op.kind, op.snap, op.reading.now);
      InsertedExtends(c, db, k, op.kind, op.snap, op.reading.now);
      CheckReflects(c, inserted, k, op.reading.now, None);
    }
  }

  /**
   Two checks of one assessment, any history between them: if the later one reports CURRENT then so
   did the earlier one and its time is not later; if the earlier one asked for revalidation then the
   later one asks for it too, for the same recorded reasons.
   */
  lemma InvalidationIsFinal(c: Codec, db: Db, ops: seq<Op>, k: Key, i: nat, j: nat)
    requires CollisionFree(c) && Sound(c, db)
    requires forall n | 0 <= n < |ops| :: Genuine(c, ops[n])
    requires i < j < |ops| && Checks(ops[i], k) && Checks(ops[j], k)
    requires OutcomeAt(c, db, ops, i).Status? && OutcomeAt(c, db, ops, j).Status?
    ensures var early, late := OutcomeAt(c, db, ops, i), OutcomeAt(c, db, ops, j);
            && (late.current ==> early.current && late.checkedAt >= early.checkedAt)
            && (!early.current ==> !late.current && late.changes == early.changes)
  {
    var d0 := Run(c, db, ops[..i]);
    var d2 := Run(c, db, ops[..j]);
    var d1 := Run(c, db, ops[..i + 1]);
    RunKeeps(c, db, ops[..i]);
    RunKeeps(c, db, ops[..i + 1]);
    RunKeeps(c, db, ops[..j]);
    assert ops[..i + 1][..i] == ops[..i];
    assert d1 == Apply(c, d0, ops[i]).0;
    assert ops[..j] == ops[..i + 1] + ops[i + 1..j];
    RunAppend(c, db, ops[..i + 1], ops[i + 1..j]);
    RunExtends(c, d1, ops[i + 1..j]);
    StatusReflectsRow(c, d0, ops[i], k);
    StatusReflectsRow(c, d2, ops[j], k);
    ApplyExtends(c, d2, ops[j]);
  }

  // ------------------------------------------------------------------- capacity

  lemma {:induction false} WithdrawAllKeys(c: Codec, db: Db, v: string, s: string, ds: seq<Digest>, now: Time)
    ensures WithdrawAll(c, db, v, s, ds, now).assessments.Keys == db.assessments.Keys
  {
    if ds != [] { WithdrawAllKeys(c, db, v, s, ds[..|ds| - 1], now); }
  }

  lemma CheckKeys(c: Codec, db: Db, k: Key, now: Time, connectors: Option<Registry>)
    ensures Check(c, db, k, now, connectors).0.assessments.Keys == db.assessments.Keys
  {
  }

  /** Only a registration adds a row, and only while its session has room. */
  lemma ApplyAddsKey(c: Codec, db: Db, op: Op)
    ensures var keys := Apply(c, db, op).0.assessments.Keys;
      keys == db.assessments.Keys
      || (&& op.OpRegister? && op.key !in db.assessments && keys == db.assessments.Keys + {op.key}
          && |InScope(db, op.key.vertical, op.key.scope)| < 10_000)
  {
    hide WithdrawAll, Check, InScope;
    match op
    case OpPut(_, _) =>
    case OpWithdraw(v, s, digests, reading) =>
      if reading.At? { WithdrawAllKeys(c, db, v, s, Ascending(Elements(digests)), reading.now); }
    case OpRegister(key, kind, snap, reading) =>
      if reading.At? {
        CheckKeys(c, db, key, reading.now, None);
        CheckKeys(c, Inserted(c, db, key, kind, snap, reading.now), key, reading.now, None);
      }
    case OpStatus(key, reading, connectors) =>
      if reading.At? { CheckKeys(c, db, key, reading.now, Some(connectors)); }
  }

  /** The assessments of one session. */
  function OfSession(db: Db, v: string, s: string): set<Key> {
    set k | k in db.assessments.Keys && k.vertical == v && k.scope == s
  }

  /** No session ever holds more than ten thousand assessments. */
  lemma {:induction false} CapacityKept(c: Codec, ops: seq<Op>, v: string, s: string)
    ensures |OfSession(Run(c, EMPTY_DB, ops), v, s)| <= 10_000
  {
    if ops == [] {
      assert OfSession(EMPTY_DB, v, s) == {};
    } else {
      hide Apply, InScope;
      var db, op := Run(c, EMPTY_DB, ops[..|ops| - 1]), ops[|ops| - 1];
      CapacityKept(c, ops[..|ops| - 1], v, s);
      ApplyAddsKey(c, db, op);
      var after := Apply(c, db, op).0;
      if after.assessments.Keys == db.assessments.Keys {
        assert OfSession(after, v, s) == OfSession(db, v, s);
      } else if op.key.vertical == v && op.key.scope == s {
        assert OfSession(db, v, s) == InScope(db, v, s) by { SessionIsScope(db, v, s); }
        assert OfSession(after, v, s) == OfSession(db, v, s) + {op.key};
      } else {
        assert OfSession(after, v, s) == OfSession(db, v, s);
      }
    }
  }

  lemma SessionIsScope(db: Db, v: string, s: string)
    ensures OfSession(db, v, s) == InScope(db, v, s)
  {
  }
}
