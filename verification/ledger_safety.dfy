/**
 What every ledger operation keeps: rows are stored under the digest of their own basis,
 an assessment is invalidated exactly when reasons are stored with it, and every assessment
 still standing agrees with the newest ledger row of each payload it depends on.
 */
module LedgerSafety {
  import opened Prelude
  import opened Ledger

  /** Every row is stored under the digest of its own basis. */
  ghost predicate RowsGenuine(c: Codec, e: Evidence) {
    forall id | id in e.observations :: c.receiptId(e.observations[id].basis) == id
  }

  /** `invalidated` holds exactly when reasons are stored. */
  ghost predicate Latched(db: Db) {
    forall k | k in db.assessments :: db.assessments[k].invalidated <==> db.assessments[k].reasons != []
  }

  /** The dependency is not withdrawn and describes the newest row of its payload. */
  ghost predicate Holds(c: Codec, e: Evidence, v: string, s: string, dep: Dependency) {
    LapseIn(c, e, v, s, dep, dep.observedAt).None?
  }

  ghost predicate Supported(c: Codec, e: Evidence, k: Key, a: Assessment) {
    a.deps != [] && forall i | 0 <= i < |a.deps| :: Holds(c, e, k.vertical, k.scope, a.deps[i])
  }

  ghost predicate Eager(c: Codec, db: Db) {
    forall k | k in db.assessments && !db.assessments[k].invalidated :: Supported(c, db.evidence, k, db.assessments[k])
  }

  ghost predicate Sound(c: Codec, db: Db) {
    RowsGenuine(c, db.evidence) && Latched(db) && Eager(c, db)
  }

  /** A stored observation carries the identifier its basis hashes to. */
  ghost predicate Genuine(c: Codec, op: Op) {
    op.OpPut? ==> op.receipt.id == c.receiptId(op.receipt.basis)
  }

  // --------------------------------------------------------- the eager pass

  /** Supported up to the payload the eager pass is about to look at. */
  ghost predicate SupportedBut(c: Codec, e: Evidence, k: Key, a: Assessment, v: string, s: string, d: Digest) {
    && a.deps != []
    && forall i | 0 <= i < |a.deps| ::
         (k.vertical == v && k.scope == s && a.deps[i].payload == d) || Holds(c, e, k.vertical, k.scope, a.deps[i])
  }

  /** A dependency that passes at the time of another one on the same payload is dated alike. */
  lemma SurvivorHolds(c: Codec, e: Evidence, k: Key, a: Assessment, v: string, s: string, d: Digest)
    requires !a.invalidated && SupportedBut(c, e, k, a, v, s, d)
    requires !Swept(c, e, k, a, v, s, d).invalidated
    ensures Supported(c, e, k, a)
  {
    if k.vertical == v && k.scope == s && Mentions(a.deps, d) {
      var selected := Selected(a.deps, d);
      var now := selected[0].observedAt;
      forall i | 0 <= i < |a.deps| ensures Holds(c, e, v, s, a.deps[i]) {
        if a.deps[i].payload == d {
          assert a.deps[i] in selected;
          var j :| 0 <= j < |selected| && selected[j] == a.deps[i];
          assert LapseIn(c, e, v, s, selected[j], now).None?;
          assert LapseIn(c, e, v, s, selected[0], now).None?;
        }
      }
    }
  }

  lemma InvalidateRestores(c: Codec, db: Db, v: string, s: string, d: Digest)
    requires Latched(db)
    requires forall k | k in db.assessments && !db.assessments[k].invalidated ::
               SupportedBut(c, db.evidence, k, db.assessments[k], v, s, d)
    ensures Latched(Invalidate(c, db, v, s, d))
    ensures Eager(c, Invalidate(c, db, v, s, d))
  {
    var after := Invalidate(c, db, v, s, d);
    forall k | k in after.assessments && !after.assessments[k].invalidated
      ensures Supported(c, after.evidence, k, after.assessments[k])
    {
      SurvivorHolds(c, db.evidence, k, db.assessments[k], v, s, d);
    }
  }

  // ------------------------------------------------------------- operations

  /** Storing a genuine receipt changes the rows of its own payload and session only. */
  lemma StoreFrame(c: Codec, e: Evidence, receipt: Receipt, summary: Summary, v: string, s: string, d: Digest)
    requires CollisionFree(c) && RowsGenuine(c, e)
    requires receipt.id == c.receiptId(receipt.basis)
    requires !(receipt.basis.vertical == v && receipt.basis.scope == s && receipt.basis.payload == d)
    ensures Slice(e.(observations := e.observations[receipt.id := Row(receipt.basis, summary)]), v, s, d)
            == Slice(e, v, s, d)
  {
    assert receipt.id in e.observations ==> e.observations[receipt.id].basis == receipt.basis;
  }

  lemma PutKeeps(c: Codec, db: Db, receipt: Receipt, summary: Summary)
    requires CollisionFree(c) && Sound(c, db)
    requires receipt.id == c.receiptId(receipt.basis)
    ensures Sound(c, Put(c, db, receipt, summary).0)
  {
    if c.summaryBytes(summary) <= MAX_STORED_SUMMARY_BYTES {
      var b := receipt.basis;
      var e := db.evidence;
      var e' := e.(observations := e.observations[receipt.id := Row(b, summary)]);
      var stored := db.(evidence := e');
      forall k | k in stored.assessments && !stored.assessments[k].invalidated
        ensures SupportedBut(c, e', k, stored.assessments[k], b.vertical, b.scope, b.payload)
      {
        var a := stored.assessments[k];
        assert Supported(c, e, k, a);
        forall i | 0 <= i < |a.deps|
          ensures (k.vertical == b.vertical && k.scope == b.scope && a.deps[i].payload == b.payload)
                  || Holds(c, e', k.vertical, k.scope, a.deps[i])
        {
          if !(b.vertical == k.vertical && b.scope == k.scope && b.payload == a.deps[i].payload) {
            StoreFrame(c, e, receipt, summary, k.vertical, k.scope, a.deps[i].payload);
            assert Holds(c, e, k.vertical, k.scope, a.deps[i]);
          }
        }
      }
      InvalidateRestores(c, stored, b.vertical, b.scope, b.payload);
    }
  }

  lemma WithdrawOneKeeps(c: Codec, db: Db, v: string, s: string, d: Digest, now: Time)
    requires Sound(c, db)
    ensures Sound(c, WithdrawOne(c, db, v, s, d, now))
  {
    var key := Key(v, s, d);
    var e := db.evidence;
    var e' := if key in e.withdrawals then e else e.(withdrawals := e.withdrawals[key := now]);
    var marked := db.(evidence := e');
    forall k | k in marked.assessments && !marked.assessments[k].invalidated
      ensures SupportedBut(c, e', k, marked.assessments[k], v, s, d)
    {
      var a := marked.assessments[k];
      assert Supported(c, e, k, a);
      forall i | 0 <= i < |a.deps|
        ensures (k.vertical == v && k.scope == s && a.deps[i].payload == d)
                || Holds(c, e', k.vertical, k.scope, a.deps[i])
      {
        assert Holds(c, e, k.vertical, k.scope, a.deps[i]);
        assert Slice(e', k.vertical, k.scope, a.deps[i].payload) == Slice(e, k.vertical, k.scope, a.deps[i].payload);
      }
    }
    InvalidateRestores(c, marked, v, s, d);
    assert WithdrawOne(c, db, v, s, d, now) == Invalidate(c, marked, v, s, d);
  }

  lemma {:induction false} WithdrawAllKeeps(c: Codec, db: Db, v: string, s: string, ds: seq<Digest>, now: Time)
    requires Sound(c, db)
    ensures Sound(c, WithdrawAll(c, db, v, s, ds, now))
  {
    if ds != [] {
      WithdrawAllKeeps(c, db, v, s, ds[..|ds| - 1], now);
      WithdrawOneKeeps(c, WithdrawAll(c, db, v, s, ds[..|ds| - 1], now), v, s, ds[|ds| - 1], now);
    }
  }

  /** A row that a check leaves standing is supported, whatever it was before. */
  lemma CheckedSupports(c: Codec, e: Evidence, k: Key, a: Assessment, now: Time, connectors: Option<Registry>)
    requires a.invalidated <==> a.reasons != []
    requires !Unreadable(c, e, k, a, now, connectors)
    ensures var b := Checked(c, e, k, a, now, connectors);
            (b.invalidated <==> b.reasons != []) && (!b.invalidated ==> Supported(c, e, k, b))
  {
    if !Checked(c, e, k, a, now, connectors).invalidated {
      assert LocalFindings(c, e, k, a, now) == [];
    }
  }

  lemma CheckKeeps(c: Codec, db: Db, k: Key, now: Time, connectors: Option<Registry>)
    requires RowsGenuine(c, db.evidence) && Latched(db)
    requires forall o | o in db.assessments && o != k && !db.assessments[o].invalidated ::
               Supported(c, db.evidence, o, db.assessments[o])
    requires !Check(c, db, k, now, connectors).1.Failed?
    ensures Sound(c, Check(c, db, k, now, connectors).0)
  {
    if k in db.assessments {
      CheckedSupports(c, db.evidence, k, db.assessments[k], now, connectors);
    }
  }

  lemma RegisterKeeps(c: Codec, db: Db, k: Key, kind: Kind, snap: Snapshot, r: Reading)
    requires Sound(c, db)
    ensures Sound(c, Register(c, db, k, kind, snap, r).0)
  {
    if !Register(c, db, k, kind, snap, r).1.Failed? {
      if k in db.assessments {
        CheckKeeps(c, db, k, r.now, None);
      } else {
        CheckKeeps(c, Inserted(c, db, k, kind, snap, r.now), k, r.now, None);
      }
    }
  }

  lemma StatusKeeps(c: Codec, db: Db, k: Key, r: Reading, connectors: Registry)
    requires Sound(c, db)
    ensures Sound(c, CheckStatus(c, db, k, r, connectors).0)
  {
  }

  lemma ApplyKeeps(c: Codec, db: Db, op: Op)
    requires CollisionFree(c) && Sound(c, db) && Genuine(c, op)
    ensures Sound(c, Apply(c, db, op).0)
  {
    match op
    case OpPut(receipt, summary) => PutKeeps(c, db, receipt, summary);
    case OpWithdraw(v, s, digests, reading) =>
      if Apply(c, db, op).1.Done? {
        WithdrawAllKeeps(c, db, v, s, Ascending(Elements(digests)), reading.now);
      }
    case OpRegister(key, kind, snap, reading) => RegisterKeeps(c, db, key, kind, snap, reading);
    case OpStatus(key, reading, connectors) => StatusKeeps(c, db, key, reading, connectors);
  }

  /** Every run of operations from a sound ledger, the empty one included, ends in a sound ledger. */
  lemma {:induction false} RunKeeps(c: Codec, db: Db, ops: seq<Op>)
    requires CollisionFree(c) && Sound(c, db)
    requires forall i | 0 <= i < |ops| :: Genuine(c, ops[i])
    ensures Sound(c, Run(c, db, ops))
  {
    if ops != [] {
      RunKeeps(c, db, ops[..|ops| - 1]);
      ApplyKeeps(c, Run(c, db, ops[..|ops| - 1]), ops[|ops| - 1]);
    }
  }

  /** The row a dependency describes, in full: newest, observed, unwithdrawn, same digest and dates. */
  ghost predicate DescribesNewest(c: Codec, e: Evidence, v: string, s: string, dep: Dependency) {
    var rows := Slice(e, v, s, dep.payload);
    && Key(v, s, dep.payload) !in e.withdrawals
    && dep.receiptId in rows
    && (forall o | o in rows ::
          || rows[o].basis.observedAt < dep.observedAt
          || (rows[o].basis.observedAt == dep.observedAt && dep.receiptId <= o))
    && rows[dep.receiptId].basis.state == "OBSERVED"
    && rows[dep.receiptId].basis.observedAt == dep.observedAt
    && rows[dep.receiptId].basis.expiresAt == dep.expiresAt
    && c.summaryId(rows[dep.receiptId].summary) == dep.summaryId
  }

  /** After any history of genuine writes, each assessment not invalidated describes the newest ledger rows. */
  lemma StandingAssessmentsDescribeLedger(c: Codec, ops: seq<Op>, k: Key)
    requires CollisionFree(c) && forall i | 0 <= i < |ops| :: Genuine(c, ops[i])
    requires k in Run(c, EMPTY_DB, ops).assessments
    ensures var db := Run(c, EMPTY_DB, ops);
            var a := db.assessments[k];
            && (a.invalidated <==> a.reasons != [])
            && (!a.invalidated ==>
                  a.deps != [] &&
                  forall i | 0 <= i < |a.deps| :: DescribesNewest(c, db.evidence, k.vertical, k.scope, a.deps[i]))
  {
    RunKeeps(c, EMPTY_DB, ops);
    var db := Run(c, EMPTY_DB, ops);
    var a := db.assessments[k];
    if !a.invalidated {
      forall i | 0 <= i < |a.deps| ensures DescribesNewest(c, db.evidence, k.vertical, k.scope, a.deps[i]) {
        var dep := a.deps[i];
        assert Holds(c, db.evidence, k.vertical, k.scope, dep);
        var rows := Slice(db.evidence, k.vertical, k.scope, dep.payload);
        assert IsNewest(rows, dep.receiptId);
        assert forall o | o in rows :: Precedes(rows, dep.receiptId, o);
      }
    }
  }
}
