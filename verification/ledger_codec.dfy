/** Hashes without collisions for the records of the ledger exist, so that the laws that ask for them say something. */
module LedgerCodec {
  import opened Prelude
  import opened Ledger
  import opened Numbering

  function CodedSummary(s: Summary): Digest { Coded([CodedText(s.text), if s.readable then 1 else 0]) }

  function CodedBasis(b: Basis): Digest {
    Coded([CodedText(b.vertical), CodedText(b.connectorId), CodedText(b.scope), b.queryHash, CodedText(b.sourceUrl),
           Folded(b.httpStatus), b.payload, Folded(b.observedAt), Folded(b.expiresAt), CodedText(b.state),
           CodedText(b.truthLabel)])
  }

  function CodedRecord(r: Record): Digest {
    Coded([r.receiptId, CodedText(r.connectorId), r.payload, r.summaryId, Folded(r.observedAt), Folded(r.expiresAt),
           r.urlId, CodedText(r.origin), Folded(r.httpStatus), CodedText(r.truthLabel), CodedText(r.state),
           CodedSummary(r.summary)])
  }

  function CodedRecords(records: seq<Record>): (r: seq<nat>)
    ensures |r| == |records| && forall i | 0 <= i < |r| :: r[i] == CodedRecord(records[i])
  {
    seq(|records|, i requires 0 <= i < |records| => CodedRecord(records[i]))
  }

  function CodedState(s: SnapshotState): nat {
    match s
    case Complete => 0
    case Partial => 1
    case Empty => 2
    case Unavailable => 3
  }

  function Bit(b: bool): nat { if b then 1 else 0 }

  function CodedBlockers(s: set<Blocker>): nat {
    Coded([Bit(ReferenceUnresolved in s), Bit(ContextBudgetExceeded in s), Bit(StoreUnavailable in s),
           Bit(StoreResultInvalid in s)])
  }

  function CodedSnapshot(s: Snapshot): Digest {
    Coded([CodedText(s.vertical), s.scopeBinding, Coded(s.requested), Coded(CodedRecords(s.records)),
           CodedState(s.state), CodedBlockers(s.blockers)])
  }

  function CodedScope(v: string, s: string): Digest { Pair(CodedText(v), CodedText(s)) }

  lemma SummaryInjective(a: Summary, b: Summary)
    requires CodedSummary(a) == CodedSummary(b)
    ensures a == b
  {
    hide Coded, CodedText;
    var x, y := [CodedText(a.text), if a.readable then 1 else 0], [CodedText(b.text), if b.readable then 1 else 0];
    CodedInjective(x, y);
    assert x[0] == y[0] && x[1] == y[1];
    CodedTextInjective(a.text, b.text);
  }

  lemma BasisInjective(a: Basis, b: Basis)
    requires CodedBasis(a) == CodedBasis(b)
    ensures a == b
  {
    hide Coded, CodedText;
    var x := [CodedText(a.vertical), CodedText(a.connectorId), CodedText(a.scope), a.queryHash, CodedText(a.sourceUrl),
              Folded(a.httpStatus), a.payload, Folded(a.observedAt), Folded(a.expiresAt), CodedText(a.state),
              CodedText(a.truthLabel)];
    var y := [CodedText(b.vertical), CodedText(b.connectorId), CodedText(b.scope), b.queryHash, CodedText(b.sourceUrl),
              Folded(b.httpStatus), b.payload, Folded(b.observedAt), Folded(b.expiresAt), CodedText(b.state),
              CodedText(b.truthLabel)];
    CodedInjective(x, y);
    assert x[0] == y[0] && x[1] == y[1] && x[2] == y[2] && x[3] == y[3] && x[4] == y[4] && x[5] == y[5];
    assert x[6] == y[6] && x[7] == y[7] && x[8] == y[8] && x[9] == y[9] && x[10] == y[10];
    CodedTextInjective(a.vertical, b.vertical);
    CodedTextInjective(a.connectorId, b.connectorId);
    CodedTextInjective(a.scope, b.scope);
    CodedTextInjective(a.sourceUrl, b.sourceUrl);
    CodedTextInjective(a.state, b.state);
    CodedTextInjective(a.truthLabel, b.truthLabel);
  }

  lemma RecordInjective(a: Record, b: Record)
    requires CodedRecord(a) == CodedRecord(b)
    ensures a == b
  {
    hide Coded, CodedText, CodedSummary;
    var x := [a.receiptId, CodedText(a.connectorId), a.payload, a.summaryId, Folded(a.observedAt), Folded(a.expiresAt),
              a.urlId, CodedText(a.origin), Folded(a.httpStatus), CodedText(a.truthLabel), CodedText(a.state),
              CodedSummary(a.summary)];
    var y := [b.receiptId, CodedText(b.connectorId), b.payload, b.summaryId, Folded(b.observedAt), Folded(b.expiresAt),
              b.urlId, CodedText(b.origin), Folded(b.httpStatus), CodedText(b.truthLabel), CodedText(b.state),
              CodedSummary(b.summary)];
    CodedInjective(x, y);
    assert x[0] == y[0] && x[1] == y[1] && x[2] == y[2] && x[3] == y[3] && x[4] == y[4] && x[5] == y[5];
    assert x[6] == y[6] && x[7] == y[7] && x[8] == y[8] && x[9] == y[9] && x[10] == y[10] && x[11] == y[11];
    CodedTextInjective(a.connectorId, b.connectorId);
    CodedTextInjective(a.origin, b.origin);
    CodedTextInjective(a.truthLabel, b.truthLabel);
    CodedTextInjective(a.state, b.state);
    SummaryInjective(a.summary, b.summary);
  }

  lemma RecordsInjective(a: seq<Record>, b: seq<Record>)
    requires Coded(CodedRecords(a)) == Coded(CodedRecords(b))
    ensures a == b
  {
    hide Coded, CodedRecord;
    CodedInjective(CodedRecords(a), CodedRecords(b));
    assert |a| == |b|;
    forall i | 0 <= i < |a| ensures a[i] == b[i] {
      assert CodedRecords(a)[i] == CodedRecords(b)[i];
      RecordInjective(a[i], b[i]);
    }
  }

  lemma BlockersInjective(a: set<Blocker>, b: set<Blocker>)
    requires CodedBlockers(a) == CodedBlockers(b)
    ensures a == b
  {
    hide Coded;
    var x := [Bit(ReferenceUnresolved in a), Bit(ContextBudgetExceeded in a), Bit(StoreUnavailable in a),
              Bit(StoreResultInvalid in a)];
    var y := [Bit(ReferenceUnresolved in b), Bit(ContextBudgetExceeded in b), Bit(StoreUnavailable in b),
              Bit(StoreResultInvalid in b)];
    CodedInjective(x, y);
    assert x[0] == y[0] && x[1] == y[1] && x[2] == y[2] && x[3] == y[3];
    forall k: Blocker ensures k in a <==> k in b {
      match k
      case ReferenceUnresolved =>
      case ContextBudgetExceeded =>
      case StoreUnavailable =>
      case StoreResultInvalid =>
    }
  }

  lemma SnapshotInjective(a: Snapshot, b: Snapshot)
    requires CodedSnapshot(a) == CodedSnapshot(b)
    ensures a == b
  {
    hide Coded, CodedText, CodedRecords, CodedBlockers;
    var x := [CodedText(a.vertical), a.scopeBinding, Coded(a.requested), Coded(CodedRecords(a.records)),
              CodedState(a.state), CodedBlockers(a.blockers)];
    var y := [CodedText(b.vertical), b.scopeBinding, Coded(b.requested), Coded(CodedRecords(b.records)),
              CodedState(b.state), CodedBlockers(b.blockers)];
    CodedInjective(x, y);
    assert x[0] == y[0] && x[1] == y[1] && x[2] == y[2] && x[3] == y[3] && x[4] == y[4] && x[5] == y[5];
    CodedTextInjective(a.vertical, b.vertical);
    CodedInjective(a.requested, b.requested);
    RecordsInjective(a.records, b.records);
    BlockersInjective(a.blockers, b.blockers);
  }

  /** A codec with any reading of URLs and any sizes. */
  function Numbered(origin: string -> Option<string>, size: Summary -> nat, sizes: seq<Record> -> nat): Codec {
    Codec(CodedBasis, CodedSummary, CodedSnapshot, CodedScope, CodedText, origin, size, sizes)
  }

  lemma NumberedIsCollisionFree(origin: string -> Option<string>, size: Summary -> nat, sizes: seq<Record> -> nat)
    ensures CollisionFree(Numbered(origin, size, sizes))
  {
    hide CodedBasis, CodedSummary, CodedSnapshot;
    var c := Numbered(origin, size, sizes);
    forall a, b | c.receiptId(a) == c.receiptId(b) ensures a == b { BasisInjective(a, b); }
    forall a, b | c.summaryId(a) == c.summaryId(b) ensures a == b { SummaryInjective(a, b); }
    forall a, b | c.snapshotId(a) == c.snapshotId(b) ensures a == b { SnapshotInjective(a, b); }
  }
}
