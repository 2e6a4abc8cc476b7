/**
 What the rows of the ledger must look like for a lookup to succeed, in terms of the rows alone: when a
 reference resolves, what each record of a complete snapshot was read from, which reason a dependency that no
 longer holds is reported with, and that a write invalidates an assessment only for cause.
 */
module EvidenceRows {
  import opened Prelude
  import opened Ledger
  import opened LedgerSafety
  import opened Admission

  /** No row of the same payload and session was observed later, or at the same time under a smaller identifier. */
  predicate IsLatest(e: Evidence, v: string, s: string, d: Digest, id: Digest) {
    && id in e.observations
    && e.observations[id].basis.vertical == v && e.observations[id].basis.scope == s
    && e.observations[id].basis.payload == d
    && forall o | o in e.observations && e.observations[o].basis.vertical == v && e.observations[o].basis.scope == s
                  && e.observations[o].basis.payload == d ::
         || e.observations[o].basis.observedAt < e.observations[id].basis.observedAt
         || (e.observations[o].basis.observedAt == e.observations[id].basis.observedAt && id <= o)
  }

  /** A successful, reported observation of a registered connector, fresh within its policy, whole and genuine. */
  predicate Qualifies(c: Codec, v: string, id: Digest, row: Row, connectors: Registry, now: Time, budget: nat) {
    var b := row.basis;
    && b.connectorId in connectors && connectors[b.connectorId].vertical == v
    && b.state == "OBSERVED" && b.truthLabel == "REPORTED"
    && b.httpStatus >= 200 && b.httpStatus <= 299
    && b.observedAt >= 0 && b.observedAt <= now && now < b.expiresAt
    && b.expiresAt - b.observedAt <= connectors[b.connectorId].freshness
    && c.origin(b.sourceUrl).Some?
    && c.receiptId(b) == id
    && c.summaryBytes(row.summary) <= budget && c.summaryBytes(row.summary) <= 128_000
    && row.summary.readable
  }

  /** The record of a row. */
  function Shown(c: Codec, id: Digest, row: Row): Record
    requires c.origin(row.basis.sourceUrl).Some?
  {
    var b := row.basis;
    Record(id, b.connectorId, b.payload, c.summaryId(row.summary), b.observedAt, b.expiresAt, c.urlId(b.sourceUrl),
           c.origin(b.sourceUrl).value, b.httpStatus, "REPORTED", "OBSERVED", row.summary)
  }

  /** The record was read from the latest row of its payload, which qualifies and is not withdrawn. */
  ghost predicate ReadFrom(c: Codec, e: Evidence, v: string, s: string, d: Digest, connectors: Registry, now: Time,
                           budget: nat, r: Record)
  {
    && IsLatest(e, v, s, d, r.receiptId)
    && Key(v, s, d) !in e.withdrawals
    && Qualifies(c, v, r.receiptId, e.observations[r.receiptId], connectors, now, budget)
    && r == Shown(c, r.receiptId, e.observations[r.receiptId])
  }

  lemma LatestIsNewest(e: Evidence, v: string, s: string, d: Digest, id: Digest)
    ensures IsLatest(e, v, s, d, id) <==> IsNewest(Slice(e, v, s, d), id)
    ensures IsLatest(e, v, s, d, id) <==> Newest(Slice(e, v, s, d)) == Some(id)
  {
    var rows := Slice(e, v, s, d);
    if IsLatest(e, v, s, d, id) {
      forall o | o in rows ensures Precedes(rows, id, o) {}
      OnlyNewest(rows, id);
    }
    if IsNewest(rows, id) {
      forall o | o in e.observations && Cites(e.observations[o], v, s, d) ensures Precedes(rows, id, o) {
        assert o in rows;
      }
    }
  }

  lemma OnlyNewest(rows: map<Digest, Row>, id: Digest)
    requires IsNewest(rows, id)
    ensures Newest(rows) == Some(id)
  {
    var other := Newest(rows).value;
    assert Precedes(rows, id, other) && Precedes(rows, other, id);
  }

  lemma AdmitInExactly(c: Codec, e: Evidence, v: string, s: string, d: Digest, connectors: Registry, now: Time,
                       budget: nat, r: Record)
    ensures AdmitIn(c, e, v, s, d, connectors, now, budget) == Some(r)
            <==> ReadFrom(c, e, v, s, d, connectors, now, budget, r)
  {
    hide IsNewest, IsLatest;
    LatestIsNewest(e, v, s, d, r.receiptId);
    var newest := Newest(Slice(e, v, s, d));
    if newest.Some? { LatestIsNewest(e, v, s, d, newest.value); LatestCites(e, v, s, d, newest.value); }
  }

  lemma LatestCites(e: Evidence, v: string, s: string, d: Digest, id: Digest)
    requires IsLatest(e, v, s, d, id)
    ensures id in e.observations && Cites(e.observations[id], v, s, d)
    ensures Slice(e, v, s, d)[id] == e.observations[id]
  {
  }

  // --------------------------------------------------------------------- resolution

  /** One record for each requested payload, in order, each within the budget on top of those before it. */
  ghost predicate AllRead(c: Codec, e: Evidence, v: string, s: string, requested: seq<Digest>, connectors: Registry,
                          now: Time, budget: nat, records: seq<Record>)
  {
    && |records| == |requested|
    && (forall i | 0 <= i < |records| :: ReadFrom(c, e, v, s, requested[i], connectors, now, budget, records[i]))
    && (forall i | 0 < i <= |records| :: c.recordsBytes(records[..i]) <= budget)
  }

  lemma AllReadIsAdmitted(c: Codec, e: Evidence, v: string, s: string, requested: seq<Digest>, connectors: Registry,
                          now: Time, budget: nat, records: seq<Record>)
    ensures AllRead(c, e, v, s, requested, connectors, now, budget, records)
            <==> AllAdmitted(c, e, v, s, requested, connectors, now, budget, records)
  {
    hide ReadFrom, AdmitIn;
    if |records| == |requested| {
      forall i | 0 <= i < |records|
        ensures ReadFrom(c, e, v, s, requested[i], connectors, now, budget, records[i])
                <==> AdmitIn(c, e, v, s, requested[i], connectors, now, budget) == Some(records[i])
      {
        AdmitInExactly(c, e, v, s, requested[i], connectors, now, budget, records[i]);
      }
    }
  }

  /**
   References resolve to a complete snapshot if and only if there are any and each has a row that can be read,
   together within the budget; the snapshot then holds the records of those rows.
   */
  lemma ResolvesExactly(c: Codec, e: Evidence, v: string, s: string, digests: seq<Digest>, connectors: Registry,
                        now: Time, budget: nat, records: seq<Record>)
    ensures var requested := Ascending(Elements(digests));
      Resolve(c, e, v, s, digests, connectors, now, budget)
      == Snapshot(v, c.scopeId(v, s), requested, records, Complete, {})
      <==> digests != [] && AllRead(c, e, v, s, requested, connectors, now, budget, records)
  {
    hide AllRead, AllAdmitted, Gather;
    AllReadIsAdmitted(c, e, v, s, Ascending(Elements(digests)), connectors, now, budget, records);
    if Resolve(c, e, v, s, digests, connectors, now, budget).state == Complete {
      CompleteIsExact(c, e, v, s, digests, connectors, now, budget);
    }
    if digests != [] && AllAdmitted(c, e, v, s, Ascending(Elements(digests)), connectors, now, budget, records) {
      ExactIsComplete(c, e, v, s, digests, connectors, now, budget, records);
    }
  }

  /** Each record of a complete snapshot was read from a row of the ledger. */
  lemma CompleteIsRead(c: Codec, e: Evidence, v: string, s: string, digests: seq<Digest>, connectors: Registry,
                       now: Time, budget: nat)
    requires Resolve(c, e, v, s, digests, connectors, now, budget).state == Complete
    ensures var snap := Resolve(c, e, v, s, digests, connectors, now, budget);
      && digests != [] && snap.requested == Ascending(Elements(digests)) && snap.blockers == {}
      && AllRead(c, e, v, s, snap.requested, connectors, now, budget, snap.records)
  {
    hide AllRead, AllAdmitted, Gather;
    CompleteIsExact(c, e, v, s, digests, connectors, now, budget);
    var snap := Resolve(c, e, v, s, digests, connectors, now, budget);
    AllReadIsAdmitted(c, e, v, s, snap.requested, connectors, now, budget, snap.records);
  }

  lemma PutStores(c: Codec, db: Db, receipt: Receipt, summary: Summary)
    requires c.summaryBytes(summary) <= 512_000
    ensures Put(c, db, receipt, summary).0.evidence
            == Evidence(db.evidence.observations[receipt.id := Row(receipt.basis, summary)], db.evidence.withdrawals)
  {
  }

  /** Nothing stored under another identifier comes before the receipt in the order of its payload. */
  predicate StaysLatest(db: Db, receipt: Receipt) {
    forall o | o in db.evidence.observations && o != receipt.id ::
      var b := db.evidence.observations[o].basis;
      b.vertical == receipt.basis.vertical && b.scope == receipt.basis.scope && b.payload == receipt.basis.payload ==>
        b.observedAt < receipt.basis.observedAt || (b.observedAt == receipt.basis.observedAt && receipt.id <= o)
  }

  /**
   A stored observation resolves: from the moment it was observed until it expires, while nothing newer is
   stored and its payload is not withdrawn, looking it up gives a complete snapshot with its record.
   */
  lemma PutThenResolve(c: Codec, db: Db, receipt: Receipt, summary: Summary, connectors: Registry, now: Time,
                       budget: nat)
    requires StaysLatest(db, receipt)
    requires var b := receipt.basis;
      && Key(b.vertical, b.scope, b.payload) !in db.evidence.withdrawals
      && Qualifies(c, b.vertical, receipt.id, Row(b, summary), connectors, now, budget)
      && c.recordsBytes([Shown(c, receipt.id, Row(b, summary))]) <= budget
    ensures var b := receipt.basis;
      Resolve(c, Put(c, db, receipt, summary).0.evidence, b.vertical, b.scope, [b.payload], connectors, now, budget)
      == Snapshot(b.vertical, c.scopeId(b.vertical, b.scope), [b.payload], [Shown(c, receipt.id, Row(b, summary))],
                  Complete, {})
  {
    hide Qualifies, Shown, Put, Resolve;
    var b := receipt.basis;
    var row := Row(b, summary);
    QualifiesParts(c, b.vertical, receipt.id, row, connectors, now, budget);
    PutStores(c, db, receipt, summary);
    var e := Put(c, db, receipt, summary).0.evidence;
    assert IsLatest(e, b.vertical, b.scope, b.payload, receipt.id);
    OneReference(b.payload);
    var records := [Shown(c, receipt.id, row)];
    assert records[..1] == records;
    assert AllRead(c, e, b.vertical, b.scope, [b.payload], connectors, now, budget, records);
    ResolvesExactly(c, e, b.vertical, b.scope, [b.payload], connectors, now, budget, records);
  }

  lemma QualifiesParts(c: Codec, v: string, id: Digest, row: Row, connectors: Registry, now: Time, budget: nat)
    requires Qualifies(c, v, id, row, connectors, now, budget)
    ensures c.origin(row.basis.sourceUrl).Some? && Shown(c, id, row).receiptId == id
    ensures c.summaryBytes(row.summary) <= 512_000
  {
  }

  lemma OneReference(d: Digest)
    ensures Ascending(Elements([d])) == [d]
  {
    AscendingUnique([d]);
  }

  /** A withdrawn payload never resolves again, whatever is stored afterwards. */
  lemma WithdrawnNeverResolves(c: Codec, e: Evidence, v: string, s: string, digests: seq<Digest>, d: Digest,
                               connectors: Registry, now: Time, budget: nat)
    requires d in digests && Key(v, s, d) in e.withdrawals
    ensures Resolve(c, e, v, s, digests, connectors, now, budget).state == Partial
  {
    hide Gather, AllRead, Ascending;
    var requested := Ascending(Elements(digests));
    assert d in requested;
    var snap := Resolve(c, e, v, s, digests, connectors, now, budget);
    if snap.state == Complete {
      CompleteIsRead(c, e, v, s, digests, connectors, now, budget);
      NoneWithdrawn(c, e, v, s, requested, connectors, now, budget, snap.records, d);
    }
  }

  lemma NoneWithdrawn(c: Codec, e: Evidence, v: string, s: string, requested: seq<Digest>, connectors: Registry,
                      now: Time, budget: nat, records: seq<Record>, d: Digest)
    requires AllRead(c, e, v, s, requested, connectors, now, budget, records) && d in requested
    ensures Key(v, s, d) !in e.withdrawals
  {
    var i :| 0 <= i < |requested| && requested[i] == d;
    assert ReadFrom(c, e, v, s, requested[i], connectors, now, budget, records[i]);
  }

  // ------------------------------------------------------------------- dependencies

  /** The reasons for which a dependency no longer holds; of several the first one counts. */
  lemma LapseExactly(c: Codec, e: Evidence, v: string, s: string, dep: Dependency, now: Time, id: Digest)
    requires IsLatest(e, v, s, dep.payload, id)
    ensures var row := e.observations[id];
      LapseIn(c, e, v, s, dep, now) ==
        if Key(v, s, dep.payload) in e.withdrawals then Some(EvidenceWithdrawn)
        else if now < dep.observedAt || now >= dep.expiresAt then Some(EvidenceNotFresh)
        else if id != dep.receiptId then Some(EvidenceRecordChanged)
        else if row.basis.state != "OBSERVED" then Some(EvidenceNotObserved)
        else if c.receiptId(row.basis) != id || !row.summary.readable then Some(EvidenceRecordInvalid)
        else if c.summaryId(row.summary) != dep.summaryId then Some(EvidenceSummaryChanged)
        else if row.basis.observedAt != dep.observedAt || row.basis.expiresAt != dep.expiresAt
          then Some(EvidenceRecordChanged)
        else None
  {
    hide IsLatest, IsNewest;
    LatestIsNewest(e, v, s, dep.payload, id);
    LatestCites(e, v, s, dep.payload, id);
  }

  /** A payload without a row is missing, unless it is withdrawn. */
  lemma LapseWithoutRow(c: Codec, e: Evidence, v: string, s: string, dep: Dependency, now: Time)
    requires forall o | o in e.observations :: !Cites(e.observations[o], v, s, dep.payload)
    ensures LapseIn(c, e, v, s, dep, now)
            == Some(if Key(v, s, dep.payload) in e.withdrawals then EvidenceWithdrawn else EvidenceMissing)
  {
    assert Slice(e, v, s, dep.payload) == map[];
  }

  lemma {:induction false} SelectedNone(deps: seq<Dependency>, d: Digest)
    requires forall i | 0 <= i < |deps| :: deps[i].payload != d
    ensures Selected(deps, d) == []
  {
    if deps != [] { SelectedNone(deps[..|deps| - 1], d); }
  }

  predicate PayloadsDiffer(deps: seq<Dependency>) {
    forall i, j | 0 <= i < j < |deps| :: deps[i].payload != deps[j].payload
  }

  lemma {:induction false} SelectedOne(deps: seq<Dependency>, i: nat)
    requires i < |deps| && PayloadsDiffer(deps)
    ensures Selected(deps, deps[i].payload) == [deps[i]]
  {
    var n := |deps| - 1;
    if i == n {
      SelectedNone(deps[..n], deps[n].payload);
    } else {
      SelectedOne(deps[..n], i);
    }
  }

  /**
   A write to a payload changes an assessment of its session only if one of its dependencies is on that payload
   and does not hold any more; the reason is then recorded, and nothing else changes.
   */
  lemma WriteInvalidatesForCause(c: Codec, db: Db, v: string, s: string, d: Digest, k: Key)
    requires k in db.assessments && PayloadsDiffer(db.assessments[k].deps)
    ensures k in Invalidate(c, db, v, s, d).assessments
    ensures var a, b := db.assessments[k], Invalidate(c, db, v, s, d).assessments[k];
      && (b != a <==> && k.vertical == v && k.scope == s && !a.invalidated
                      && exists i :: && 0 <= i < |a.deps| && a.deps[i].payload == d
                                     && LapseIn(c, db.evidence, v, s, a.deps[i], a.deps[i].observedAt).Some?)
      && forall i | 0 <= i < |a.deps| && a.deps[i].payload == d && b != a ::
           && LapseIn(c, db.evidence, v, s, a.deps[i], a.deps[i].observedAt).Some?
           && b == a.(invalidated := true,
                      reasons :=
                        [Change(Some(d), LapseIn(c, db.evidence, v, s, a.deps[i], a.deps[i].observedAt).value)])
  {
    hide LapseIn;
    var a := db.assessments[k];
    if i :| 0 <= i < |a.deps| && a.deps[i].payload == d {
      SelectedOne(a.deps, i);
      OneChange(c, db.evidence, v, s, a.deps[i], a.deps[i].observedAt);
      assert forall j | 0 <= j < |a.deps| && a.deps[j].payload == d :: j == i;
    }
  }

  lemma OneChange(c: Codec, e: Evidence, v: string, s: string, dep: Dependency, now: Time)
    ensures DependencyChanges(c, e, v, s, [dep], now)
            == match LapseIn(c, e, v, s, dep, now)
               case None => []
               case Some(reason) => [Change(Some(dep.payload), reason)]
  {
    assert [dep][..0] == [];
    assert DependencyChanges(c, e, v, s, [], now) == [];
  }

  // ------------------------------------------------------------------------- cache

  /** A connector query may be answered from the ledger exactly by its latest row, observed, fresh and not withdrawn. */
  lemma CachedExactly(c: Codec, e: Evidence, v: string, connectorId: string, s: string, queryHash: Digest, now: Time,
                      id: Digest, row: Row)
    ensures Cached(e, v, connectorId, s, queryHash, now) == Some((id, row)) <==>
      && id in e.observations && e.observations[id] == row
      && row.basis.vertical == v && row.basis.connectorId == connectorId && row.basis.scope == s
      && row.basis.queryHash == queryHash
      && (forall o | o in e.observations ::
            var b := e.observations[o].basis;
            b.vertical == v && b.connectorId == connectorId && b.scope == s && b.queryHash == queryHash ==>
              b.observedAt < row.basis.observedAt || (b.observedAt == row.basis.observedAt && id <= o))
      && row.basis.state == "OBSERVED" && row.basis.observedAt <= now && now < row.basis.expiresAt
      && Key(v, s, row.basis.payload) !in e.withdrawals
  {
    var rows := QueryRows(e, v, connectorId, s, queryHash);
    if id in rows && rows[id] == row
       && forall o | o in e.observations ::
            var b := e.observations[o].basis;
            b.vertical == v && b.connectorId == connectorId && b.scope == s && b.queryHash == queryHash ==>
              b.observedAt < row.basis.observedAt || (b.observedAt == row.basis.observedAt && id <= o)
    {
      forall o | o in rows ensures Precedes(rows, id, o) {}
      OnlyNewest(rows, id);
    }
    if Newest(rows) == Some(id) {
      forall o | o in e.observations
        ensures var b := e.observations[o].basis;
          b.vertical == v && b.connectorId == connectorId && b.scope == s && b.queryHash == queryHash ==>
            b.observedAt < rows[id].basis.observedAt || (b.observedAt == rows[id].basis.observedAt && id <= o)
      {
        if o in rows { assert Precedes(rows, id, o); }
      }
    }
  }

  // -------------------------------------------------------------------- withdrawals

  lemma {:induction false} WithdrawAllMarks(c: Codec, db: Db, v: string, s: string, ds: seq<Digest>, now: Time, k: Key)
    ensures var after := WithdrawAll(c, db, v, s, ds, now).evidence;
      && after.observations == db.evidence.observations
      && (k in after.withdrawals
          <==> k in db.evidence.withdrawals || (k.vertical == v && k.scope == s && k.id in ds))
      && (k in after.withdrawals ==>
            after.withdrawals[k] == if k in db.evidence.withdrawals then db.evidence.withdrawals[k] else now)
  {
    hide Invalidate;
    if ds != [] {
      var n := |ds| - 1;
      WithdrawAllMarks(c, db, v, s, ds[..n], now, k);
      WithdrawAllMarks(c, db, v, s, ds[..n], now, Key(v, s, ds[n]));
      assert ds == ds[..n] + [ds[n]];
      InvalidateKeepsEvidence(c, WithdrawAll(c, db, v, s, ds[..n], now), v, s, ds[n], now);
    }
  }

  lemma InvalidateKeepsEvidence(c: Codec, db: Db, v: string, s: string, d: Digest, now: Time)
    ensures WithdrawOne(c, db, v, s, d, now).evidence
            == if Key(v, s, d) in db.evidence.withdrawals then db.evidence
               else Evidence(db.evidence.observations, db.evidence.withdrawals[Key(v, s, d) := now])
  {
  }

  /**
   A withdrawal is refused for a bad scope or list, a bad reading, or one payload without a row in the session;
   otherwise exactly the given payloads are marked, those marked before keeping their time.
   */
  lemma WithdrawsExactly(c: Codec, db: Db, v: string, s: string, digests: seq<Digest>, r: Reading, k: Key)
    ensures var (after, outcome) := Withdraw(c, db, v, s, digests, r);
      && (outcome == Done
          <==> && 1 <= |v| <= 64 && 1 <= |s| <= 256 && 1 <= |digests| <= 64 && r.At? && r.now >= 0
               && forall d | d in digests ::
                    exists o :: o in db.evidence.observations && Cites(db.evidence.observations[o], v, s, d))
      && (outcome != Done ==> after == db)
      && (outcome == Done ==>
            && (k in after.evidence.withdrawals
                <==> k in db.evidence.withdrawals || (k.vertical == v && k.scope == s && k.id in digests))
            && (k in after.evidence.withdrawals ==>
                  after.evidence.withdrawals[k]
                  == if k in db.evidence.withdrawals then db.evidence.withdrawals[k] else r.now))
  {
    hide *;
    var (after, outcome) := Withdraw(c, db, v, s, digests, r);
    WithdrawDone(c, db, v, s, digests, r);
    if outcome == Done {
      WithdrawnMarks(c, db, v, s, digests, r, k);
    }
  }

  lemma WithdrawDone(c: Codec, db: Db, v: string, s: string, digests: seq<Digest>, r: Reading)
    ensures var (after, outcome) := Withdraw(c, db, v, s, digests, r);
      && (outcome == Done
          <==> && 1 <= |v| <= 64 && 1 <= |s| <= 256 && 1 <= |digests| <= 64 && r.At? && r.now >= 0
               && forall d | d in digests ::
                    exists o :: o in db.evidence.observations && Cites(db.evidence.observations[o], v, s, d))
      && (outcome != Done ==> after == db)
  {
    hide WithdrawAll, Held, Cites;
    assert forall d :: d in Ascending(Elements(digests)) <==> d in digests;
    forall d
      ensures Held(db.evidence, v, s, d)
              <==> exists o :: o in db.evidence.observations && Cites(db.evidence.observations[o], v, s, d)
    {
      HeldExactly(db.evidence, v, s, d);
    }
  }

  lemma WithdrawnMarks(c: Codec, db: Db, v: string, s: string, digests: seq<Digest>, r: Reading, k: Key)
    requires Withdraw(c, db, v, s, digests, r).1 == Done
    ensures r.At?
    ensures var marks := Withdraw(c, db, v, s, digests, r).0.evidence.withdrawals;
      && (k in marks <==> k in db.evidence.withdrawals || (k.vertical == v && k.scope == s && k.id in digests))
      && (k in marks ==>
            marks[k] == if k in db.evidence.withdrawals then db.evidence.withdrawals[k] else r.now)
  {
    hide WithdrawAll, Held;
    var ds := Ascending(Elements(digests));
    assert forall d :: d in ds <==> d in digests;
    WithdrawAllMarks(c, db, v, s, ds, r.now, k);
  }

  lemma HeldExactly(e: Evidence, v: string, s: string, d: Digest)
    ensures Held(e, v, s, d) <==> exists o :: o in e.observations && Cites(e.observations[o], v, s, d)
  {
    if o :| o in e.observations && Cites(e.observations[o], v, s, d) { assert o in Slice(e, v, s, d); }
    if Held(e, v, s, d) {
      var o :| o in Slice(e, v, s, d);
      assert o in e.observations && Cites(e.observations[o], v, s, d);
    }
  }
}
