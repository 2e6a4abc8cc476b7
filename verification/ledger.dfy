/**
 The observation ledger as tables of values: observations, withdrawals and registered
 assessments, and what each ledger operation does to them. Digests are the numbers their
 hexadecimal text denotes, so numeric order is the order of the text. Times count the smallest step
 of the clock's floating-point values, so every clock value is an integer. The hash functions, the
 byte counts and the URL parser are parameters, gathered in `Codec`.
 */
module Ledger {
  import opened Prelude

  type Digest = nat
  type Time = int

  const DEFAULT_BUDGET: nat := 128_000
  const MAX_SUMMARY_BYTES: nat := 128_000
  const MAX_STORED_SUMMARY_BYTES: nat := 512_000
  const MAX_REFERENCES: nat := 64
  const MAX_ASSESSMENTS_PER_SCOPE: nat := 10_000

  // ---------------------------------------------------------------- rows

  /** The fields a receipt identifier is computed from. */
  datatype Basis = Basis(
    vertical: string, connectorId: string, scope: string, queryHash: Digest, sourceUrl: string,
    httpStatus: int, payload: Digest, observedAt: Time, expiresAt: Time, state: string, truthLabel: string)

  /** A stored summary. `readable` says that its text parses without a duplicate member or a
      non-finite number, so that it has a canonical form. */
  datatype Summary = Summary(text: string, readable: bool)

  /** One row of the observation table, stored under its receipt identifier. */
  datatype Row = Row(basis: Basis, summary: Summary)

  datatype Dependency = Dependency(
    payload: Digest, receiptId: Digest, summaryId: Digest, observedAt: Time, expiresAt: Time)

  datatype Reason =
    | EvidenceWithdrawn | EvidenceMissing | EvidenceNotFresh | EvidenceRecordChanged | EvidenceNotObserved
    | EvidenceSummaryChanged | EvidenceRecordInvalid | AssessmentClockRegressed | EvidenceAdmissionChanged

  datatype Change = Change(payload: Option<Digest>, reason: Reason)

  datatype Kind = IntelligencePlan | HatunReview

  datatype Assessment = Assessment(
    kind: Kind, snapshotId: Digest, deps: seq<Dependency>, assessedAt: Time, lastCheckedAt: Time,
    invalidated: bool, reasons: seq<Change>)

  /** Primary key of withdrawals (`id` is the payload) and of assessments. */
  datatype Key = Key(vertical: string, scope: string, id: Digest)

  /** The two tables evidence lookups read. */
  datatype Evidence = Evidence(observations: map<Digest, Row>, withdrawals: map<Key, Time>)

  datatype Db = Db(evidence: Evidence, assessments: map<Key, Assessment>)

  // ------------------------------------------------------------ evidence

  datatype Record = Record(
    receiptId: Digest, connectorId: string, payload: Digest, summaryId: Digest, observedAt: Time,
    expiresAt: Time, urlId: Digest, origin: string, httpStatus: int, truthLabel: string, state: string,
    summary: Summary)

  datatype SnapshotState = Complete | Partial | Empty | Unavailable

  datatype Blocker = ReferenceUnresolved | ContextBudgetExceeded | StoreUnavailable | StoreResultInvalid

  datatype Snapshot = Snapshot(
    vertical: string, scopeBinding: Digest, requested: seq<Digest>, records: seq<Record>,
    state: SnapshotState, blockers: set<Blocker>)
  {
    predicate MatchesScope(c: Codec, v: string, s: string, digests: seq<Digest>) {
      && vertical == v
      && scopeBinding == c.scopeId(v, s)
      && requested == Ascending(Elements(digests))
    }

    predicate FreshAt(now: Time) {
      && state == Complete
      && records != []
      && forall i | 0 <= i < |records| :: records[i].observedAt <= now < records[i].expiresAt
    }
  }

  datatype Connector = Connector(vertical: string, freshness: Time)

  type Registry = map<string, Connector>

  /** Hashes, encoders and the URL parser, all opaque to the ledger. */
  datatype Codec = Codec(
    receiptId: Basis -> Digest,
    summaryId: Summary -> Digest,
    snapshotId: Snapshot -> Digest,
    scopeId: (string, string) -> Digest,
    urlId: string -> Digest,
    origin: string -> Option<string>,
    summaryBytes: Summary -> nat,
    recordsBytes: seq<Record> -> nat)

  /** No two inputs of the receipt, summary or snapshot hash share a digest. */
  ghost predicate CollisionFree(c: Codec) {
    && (forall a, b :: c.receiptId(a) == c.receiptId(b) ==> a == b)
    && (forall a, b :: c.summaryId(a) == c.summaryId(b) ==> a == b)
    && (forall a, b :: c.snapshotId(a) == c.snapshotId(b) ==> a == b)
  }

  // ------------------------------------------------------------- queries

  predicate Cites(row: Row, v: string, s: string, d: Digest) {
    row.basis.vertical == v && row.basis.scope == s && row.basis.payload == d
  }

  /** The observations of one payload in one session. */
  function Slice(e: Evidence, v: string, s: string, d: Digest): map<Digest, Row> {
    map id | id in e.observations && Cites(e.observations[id], v, s, d) :: e.observations[id]
  }

  predicate Withdrawn(e: Evidence, v: string, s: string, d: Digest) {
    Key(v, s, d) in e.withdrawals
  }

  /** `ORDER BY observed_at DESC, receipt_id ASC`. */
  predicate Precedes(rows: map<Digest, Row>, a: Digest, b: Digest)
    requires a in rows && b in rows
  {
    || rows[a].basis.observedAt > rows[b].basis.observedAt
    || (rows[a].basis.observedAt == rows[b].basis.observedAt && a <= b)
  }

  predicate IsNewest(rows: map<Digest, Row>, id: Digest) {
    id in rows && forall o | o in rows :: Precedes(rows, id, o)
  }

  lemma {:induction false} NewestExists(rows: map<Digest, Row>)
    requires rows != map[]
    ensures exists id :: IsNewest(rows, id)
    decreases |rows|
  {
    var a :| a in rows;
    var rest := map o | o in rows && o != a :: rows[o];
    if rest == map[] {
      assert forall o | o in rows && o != a :: o in rest;
      assert IsNewest(rows, a);
    } else {
      assert rest.Keys == rows.Keys - {a};
      NewestExists(rest);
      var b :| IsNewest(rest, b);
      if Precedes(rows, a, b) {
        forall o | o in rows ensures Precedes(rows, a, o) {
          if o != a { assert o in rest && Precedes(rest, b, o); }
        }
        assert IsNewest(rows, a);
      } else {
        forall o | o in rows ensures Precedes(rows, b, o) {
          if o != a { assert o in rest && Precedes(rest, b, o); }
        }
        assert IsNewest(rows, b);
      }
    }
  }

  /** The row the newest-first order puts at the front. */
  function Newest(rows: map<Digest, Row>): (r: Option<Digest>)
    ensures r.None? <==> rows == map[]
    ensures r.Some? ==> IsNewest(rows, r.value)
  {
    if rows == map[] then None
    else
      NewestExists(rows);
      var id :| IsNewest(rows, id);
      Some(id)
  }

  // -------------------------------------------------- dependency checking

  /** Why a dependency no longer holds at `now`, if it does not. */
  function Lapse(c: Codec, withdrawn: bool, rows: map<Digest, Row>, dep: Dependency, now: Time): Option<Reason> {
    var newest := Newest(rows);
    if withdrawn then Some(EvidenceWithdrawn)
    else if newest.None? then Some(EvidenceMissing)
    else if !(dep.observedAt <= now < dep.expiresAt) then Some(EvidenceNotFresh)
    else if newest.value != dep.receiptId then Some(EvidenceRecordChanged)
    else
      var row := rows[newest.value];
      if row.basis.state != "OBSERVED" then Some(EvidenceNotObserved)
      else if c.receiptId(row.basis) != newest.value || !row.summary.readable then Some(EvidenceRecordInvalid)
      else if c.summaryId(row.summary) != dep.summaryId then Some(EvidenceSummaryChanged)
      else if row.basis.observedAt != dep.observedAt || row.basis.expiresAt != dep.expiresAt then
        Some(EvidenceRecordChanged)
      else None
  }

  function LapseIn(c: Codec, e: Evidence, v: string, s: string, dep: Dependency, now: Time): Option<Reason> {
    Lapse(c, Withdrawn(e, v, s, dep.payload), Slice(e, v, s, dep.payload), dep, now)
  }

  function DependencyChanges(c: Codec, e: Evidence, v: string, s: string, deps: seq<Dependency>, now: Time)
    : (changes: seq<Change>)
    ensures changes == [] <==> forall i | 0 <= i < |deps| :: LapseIn(c, e, v, s, deps[i], now).None?
    ensures forall ch | ch in changes :: ch.reason != AssessmentClockRegressed
  {
    if deps == [] then []
    else
      var before := DependencyChanges(c, e, v, s, deps[..|deps| - 1], now);
      var last := deps[|deps| - 1];
      match LapseIn(c, e, v, s, last, now)
      case None => before
      case Some(reason) => before + [Change(Some(last.payload), reason)]
  }

  predicate Mentions(deps: seq<Dependency>, d: Digest) {
    exists i :: 0 <= i < |deps| && deps[i].payload == d
  }

  function Selected(deps: seq<Dependency>, d: Digest): (r: seq<Dependency>)
    ensures r != [] <==> Mentions(deps, d)
    ensures forall x :: x in r <==> x in deps && x.payload == d
  {
    if deps == [] then []
    else
      var before := Selected(deps[..|deps| - 1], d);
      var last := deps[|deps| - 1];
      assert deps == deps[..|deps| - 1] + [last];
      if last.payload == d then before + [last] else before
  }

  /** What the eager pass over payload `d` writes to one assessment row. */
  function Swept(c: Codec, e: Evidence, k: Key, a: Assessment, v: string, s: string, d: Digest): Assessment {
    if k.vertical == v && k.scope == s && !a.invalidated && Mentions(a.deps, d) then
      var selected := Selected(a.deps, d);
      var changes := DependencyChanges(c, e, v, s, selected, selected[0].observedAt);
      if changes == [] then a else a.(invalidated := true, reasons := changes)
    else a
  }

  function Invalidate(c: Codec, db: Db, v: string, s: string, d: Digest): Db {
    db.(assessments := map k | k in db.assessments :: Swept(c, db.evidence, k, db.assessments[k], v, s, d))
  }

  // ---------------------------------------------------------- resolution

  /** The record a lookup of `d` yields, when every admission rule holds. */
  function Admit(c: Codec, withdrawn: bool, rows: map<Digest, Row>, v: string, connectors: Registry,
                 now: Time, budget: nat): Option<Record>
  {
    match Newest(rows)
    case None => None
    case Some(id) =>
      var row := rows[id];
      var b := row.basis;
      var origin := c.origin(b.sourceUrl);
      if && !withdrawn
         && b.connectorId in connectors && connectors[b.connectorId].vertical == v
         && b.state == "OBSERVED" && b.truthLabel == "REPORTED" && 200 <= b.httpStatus < 300
         && 0 <= b.observedAt <= now < b.expiresAt
         && b.expiresAt <= b.observedAt + connectors[b.connectorId].freshness
         && origin.Some?
         && c.receiptId(b) == id
         && c.summaryBytes(row.summary) <= budget && c.summaryBytes(row.summary) <= MAX_SUMMARY_BYTES
         && row.summary.readable
      then Some(Record(id, b.connectorId, b.payload, c.summaryId(row.summary), b.observedAt, b.expiresAt,
                       c.urlId(b.sourceUrl), origin.value, b.httpStatus, b.truthLabel, b.state, row.summary))
      else None
  }

  function AdmitIn(c: Codec, e: Evidence, v: string, s: string, d: Digest, connectors: Registry, now: Time,
                   budget: nat): Option<Record>
  {
    Admit(c, Withdrawn(e, v, s, d), Slice(e, v, s, d), v, connectors, now, budget)
  }

  datatype Gathered = Gathered(records: seq<Record>, blockers: set<Blocker>)

  function Gather(c: Codec, e: Evidence, v: string, s: string, ds: seq<Digest>, connectors: Registry, now: Time,
                  budget: nat): (g: Gathered)
    ensures |g.records| <= |ds|
  {
    if ds == [] then Gathered([], {})
    else
      var g := Gather(c, e, v, s, ds[..|ds| - 1], connectors, now, budget);
      match AdmitIn(c, e, v, s, ds[|ds| - 1], connectors, now, budget)
      case None => g.(blockers := g.blockers + {ReferenceUnresolved})
      case Some(record) =>
        if c.recordsBytes(g.records + [record]) > budget
        then g.(blockers := g.blockers + {ContextBudgetExceeded})
        else g.(records := g.records + [record])
  }

  /** Resolve the requested payloads in one session against one state of the ledger. */
  function Resolve(c: Codec, e: Evidence, v: string, s: string, digests: seq<Digest>, connectors: Registry,
                   now: Time, budget: nat): Snapshot
  {
    var requested := Ascending(Elements(digests));
    var g := Gather(c, e, v, s, requested, connectors, now, budget);
    var blockers := if |g.records| != |requested| then g.blockers + {ReferenceUnresolved} else g.blockers;
    var state := if blockers != {} then Partial else if requested != [] then Complete else Empty;
    Snapshot(v, c.scopeId(v, s), requested, g.records, state, blockers)
  }

  /** The observations of one connector query in one session. */
  function QueryRows(e: Evidence, v: string, connectorId: string, s: string, queryHash: Digest): map<Digest, Row> {
    map id | id in e.observations
             && e.observations[id].basis.vertical == v && e.observations[id].basis.scope == s
             && e.observations[id].basis.connectorId == connectorId
             && e.observations[id].basis.queryHash == queryHash :: e.observations[id]
  }

  /** The newest row a connector query left in one session, with its identifier, if it may be reused. */
  function Cached(e: Evidence, v: string, connectorId: string, s: string, queryHash: Digest, now: Time)
    : Option<(Digest, Row)>
  {
    var rows := QueryRows(e, v, connectorId, s, queryHash);
    match Newest(rows)
    case None => None
    case Some(id) =>
      var b := rows[id].basis;
      if Withdrawn(e, v, s, b.payload) || b.state != "OBSERVED" || !(b.observedAt <= now < b.expiresAt) then None
      else Some((id, rows[id]))
  }

  // ---------------------------------------------------------- operations

  datatype Reading = Broken | At(now: Time)

  predicate ReadingValid(r: Reading) {
    r.At? && r.now >= 0
  }

  datatype Error =
    | ScopeInvalid | NotRegistrable | ClockUnavailable | IdentityConflict | CapacityReached
    | StoredRowMalformed | EvidenceNotFound | RequestInvalid | SummaryTooLarge | StoreDown | EvidenceUnavailable

  datatype Outcome =
    | Failed(error: Error)
    | NoAssessment
    | Done
    | Status(kind: Kind, snapshotId: Digest, current: bool, changes: seq<Change>, checkedAt: Time)

  predicate ScopeValid(v: string, s: string) {
    1 <= |v| <= 64 && 1 <= |s| <= 256
  }

  datatype Receipt = Receipt(id: Digest, basis: Basis)

  function Put(c: Codec, db: Db, receipt: Receipt, summary: Summary): (Db, Outcome) {
    if c.summaryBytes(summary) > MAX_STORED_SUMMARY_BYTES then (db, Failed(SummaryTooLarge))
    else
      var b := receipt.basis;
      var observations := db.evidence.observations[receipt.id := Row(b, summary)];
      var stored := db.(evidence := db.evidence.(observations := observations));
      (Invalidate(c, stored, b.vertical, b.scope, b.payload), Done)
  }

  predicate Held(e: Evidence, v: string, s: string, d: Digest) {
    Slice(e, v, s, d) != map[]
  }

  function WithdrawOne(c: Codec, db: Db, v: string, s: string, d: Digest, now: Time): Db {
    var k := Key(v, s, d);
    var marked :=
      if k in db.evidence.withdrawals then db
      else db.(evidence := db.evidence.(withdrawals := db.evidence.withdrawals[k := now]));
    Invalidate(c, marked, v, s, d)
  }

  function WithdrawAll(c: Codec, db: Db, v: string, s: string, ds: seq<Digest>, now: Time): Db {
    if ds == [] then db
    else WithdrawOne(c, WithdrawAll(c, db, v, s, ds[..|ds| - 1], now), v, s, ds[|ds| - 1], now)
  }

  /** Why a withdrawal request is refused, if it is. */
  function WithdrawalError(db: Db, v: string, s: string, digests: seq<Digest>, r: Reading): Option<Error> {
    if !ScopeValid(v, s) then Some(ScopeInvalid)
    else if !(1 <= |digests| <= MAX_REFERENCES) then Some(RequestInvalid)
    else if !ReadingValid(r) then Some(ClockUnavailable)
    else if exists d :: d in digests && !Held(db.evidence, v, s, d) then Some(EvidenceNotFound)
    else None
  }

  function Withdraw(c: Codec, db: Db, v: string, s: string, digests: seq<Digest>, r: Reading): (Db, Outcome) {
    match WithdrawalError(db, v, s, digests, r)
    case Some(error) => (db, Failed(error))
    case None => (WithdrawAll(c, db, v, s, Ascending(Elements(digests)), r.now), Done)
  }

  function Payloads(deps: seq<Dependency>): (r: seq<Digest>)
    ensures |r| == |deps| && forall i | 0 <= i < |r| :: r[i] == deps[i].payload
  {
    seq(|deps|, i requires 0 <= i < |deps| => deps[i].payload)
  }

  /** What the recorded dependencies and the clock alone say about an un-invalidated row. */
  function LocalFindings(c: Codec, e: Evidence, k: Key, a: Assessment, now: Time): seq<Change> {
    DependencyChanges(c, e, k.vertical, k.scope, a.deps, now)
    + if now < a.lastCheckedAt then [Change(None, AssessmentClockRegressed)] else []
  }

  /** The findings a check of an un-invalidated row records. */
  function Findings(c: Codec, e: Evidence, k: Key, a: Assessment, now: Time, connectors: Option<Registry>)
    : seq<Change>
  {
    var changes := LocalFindings(c, e, k, a, now);
    if changes == [] && connectors.Some? &&
       c.snapshotId(Resolve(c, e, k.vertical, k.scope, Payloads(a.deps), connectors.value, now, DEFAULT_BUDGET))
         != a.snapshotId
    then [Change(None, EvidenceAdmissionChanged)]
    else changes
  }

  /** What a check writes to the row and reports, for the row `a` of key `k`. */
  function Checked(c: Codec, e: Evidence, k: Key, a: Assessment, now: Time, connectors: Option<Registry>): Assessment {
    var changes := if a.invalidated then a.reasons else Findings(c, e, k, a, now, connectors);
    a.(invalidated := changes != [], reasons := changes,
       lastCheckedAt := if now >= a.lastCheckedAt then now else a.lastCheckedAt)
  }

  /** A row whose dependencies cannot be parsed, or are too many to be resolved again. */
  predicate Unreadable(c: Codec, e: Evidence, k: Key, a: Assessment, now: Time, connectors: Option<Registry>) {
    !a.invalidated &&
    (a.deps == [] || (connectors.Some? && |a.deps| > MAX_REFERENCES && LocalFindings(c, e, k, a, now) == []))
  }

  function Check(c: Codec, db: Db, k: Key, now: Time, connectors: Option<Registry>): (Db, Outcome) {
    if k !in db.assessments then (db, NoAssessment)
    else
      var a := db.assessments[k];
      if Unreadable(c, db.evidence, k, a, now, connectors) then (db, Failed(StoredRowMalformed))
      else
        var b := Checked(c, db.evidence, k, a, now, connectors);
        (db.(assessments := db.assessments[k := b]),
         Status(a.kind, a.snapshotId, b.reasons == [], b.reasons, now))
  }

  function CheckStatus(c: Codec, db: Db, k: Key, r: Reading, connectors: Registry): (Db, Outcome) {
    if !ScopeValid(k.vertical, k.scope) then (db, Failed(ScopeInvalid))
    else if !ReadingValid(r) then (db, Failed(ClockUnavailable))
    else Check(c, db, k, r.now, Some(connectors))
  }

  function DependenciesOf(records: seq<Record>): (r: seq<Dependency>)
    ensures |r| == |records|
    ensures forall i | 0 <= i < |r| ::
              r[i] == Dependency(records[i].payload, records[i].receiptId, records[i].summaryId,
                                 records[i].observedAt, records[i].expiresAt)
  {
    seq(|records|, i requires 0 <= i < |records| =>
      Dependency(records[i].payload, records[i].receiptId, records[i].summaryId,
                 records[i].observedAt, records[i].expiresAt))
  }

  function InScope(db: Db, v: string, s: string): set<Key> {
    set k | k in db.assessments && k.vertical == v && k.scope == s
  }

  /** The ledger with a fresh assessment row, before its first check. */
  function Inserted(c: Codec, db: Db, k: Key, kind: Kind, snap: Snapshot, now: Time): Db {
    db.(assessments :=
      db.assessments[k := Assessment(kind, c.snapshotId(snap), DependenciesOf(snap.records), now, now, false, [])])
  }

  predicate Registrable(c: Codec, k: Key, snap: Snapshot) {
    snap.MatchesScope(c, k.vertical, k.scope, snap.requested) && snap.state == Complete && snap.requested != []
  }

  /** Why a registration is refused before the evidence is looked at, if it is. */
  function RegistrationError(c: Codec, db: Db, k: Key, kind: Kind, snap: Snapshot, r: Reading): Option<Error> {
    if !ScopeValid(k.vertical, k.scope) then Some(ScopeInvalid)
    else if !Registrable(c, k, snap) then Some(NotRegistrable)
    else if !ReadingValid(r) then Some(ClockUnavailable)
    else if k in db.assessments then
      if db.assessments[k].snapshotId != c.snapshotId(snap) || db.assessments[k].kind != kind
      then Some(IdentityConflict) else None
    else if |InScope(db, k.vertical, k.scope)| >= MAX_ASSESSMENTS_PER_SCOPE then Some(CapacityReached)
    else None
  }

  function RegisterNew(c: Codec, db: Db, k: Key, kind: Kind, snap: Snapshot, now: Time): (Db, Outcome) {
    var (after, outcome) := Check(c, Inserted(c, db, k, kind, snap, now), k, now, None);
    if outcome.Failed? then (db, outcome) else (after, outcome)
  }

  function Register(c: Codec, db: Db, k: Key, kind: Kind, snap: Snapshot, r: Reading): (Db, Outcome) {
    match RegistrationError(c, db, k, kind, snap, r)
    case Some(error) => (db, Failed(error))
    case None =>
      if k in db.assessments then Check(c, db, k, r.now, None) else RegisterNew(c, db, k, kind, snap, r.now)
  }

  // ---------------------------------------------------------------- runs

  datatype Op =
    | OpPut(receipt: Receipt, summary: Summary)
    | OpWithdraw(v: string, s: string, digests: seq<Digest>, reading: Reading)
    | OpRegister(key: Key, kind: Kind, snap: Snapshot, reading: Reading)
    | OpStatus(key: Key, reading: Reading, connectors: Registry)

  function Apply(c: Codec, db: Db, op: Op): (Db, Outcome) {
    match op
    case OpPut(receipt, summary) => Put(c, db, receipt, summary)
    case OpWithdraw(v, s, digests, reading) => Withdraw(c, db, v, s, digests, reading)
    case OpRegister(key, kind, snap, reading) => Register(c, db, key, kind, snap, reading)
    case OpStatus(key, reading, connectors) => CheckStatus(c, db, key, reading, connectors)
  }

  function Run(c: Codec, db: Db, ops: seq<Op>): Db {
    if ops == [] then db else Apply(c, Run(c, db, ops[..|ops| - 1]), ops[|ops| - 1]).0
  }

  const EMPTY_DB := Db(Evidence(map[], map[]), map[])
}
