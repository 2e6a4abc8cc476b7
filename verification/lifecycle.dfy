/**
 Replay of recorded identity and designation events: admission of snapshots and events, the fold of
 the designations of each (entity, source) stream, and the report. `Replay` is the meaning of
 `ReplayIdentityLifecycle`; instants are microseconds, and lists the program returns as
 `sorted(set(...))` are sets here.
 */
module Lifecycle {
  import opened Prelude
  import opened Chronology
  import opened Payloads

  const MICROSECONDS: int := 1_000_000
  const ALLOWED_FUTURE_SKEW: int := 300 * MICROSECONDS
  const STALE_AFTER: int := 365 * 86_400 * MICROSECONDS

  // ------------------------------------------------------------------- values

  datatype Kind =
    | DesignationAdded | DesignationRemoved | Delisted
    | IdentityChanged | NameChanged | FlagChanged | OwnershipChanged

  datatype SourceState = Observed | Unavailable | Stale | NotAttempted

  datatype Event = Event(
    id: string, stream: Stream, time: string, kind: Kind, revision: string, state: SourceState,
    payload: Payload)

  datatype RawSnapshot = RawSnapshot(stream: Stream, asOf: string, active: seq<string>, digest: string)

  datatype Snapshot = Snapshot(stream: Stream, asOf: string, active: set<string>, digest: string)

  /** What the replay takes from its surroundings: time texts, digests and `str`. */
  datatype Setting = Setting(
    parse: string -> Option<int>,
    iso: int -> string,
    lower: string -> string,
    digest: (Stream, string, set<string>) -> string,
    seal: (int, Kind, string, SourceState, map<string, Canon>) -> Option<nat>,
    show: Value -> string)

  datatype Error =
    | UnreadableTime | TimeAhead | BadSnapshotFields | RepeatedDesignation | DigestMismatch
    | RepeatedSnapshot | NotSerialisable | ConflictingDuplicate | NotAfterSnapshot

  datatype Outcome<+T> = Accepted(value: T) | Rejected(error: Error)

  // ---------------------------------------------------------------- admission

  function Larger(a: int, b: int): int { if a >= b then a else b }

  function AdmitTime(x: Setting, now: int, text: string): Outcome<int> {
    match x.parse(text)
    case None => Rejected(UnreadableTime)
    case Some(t) => if t - now > ALLOWED_FUTURE_SKEW then Rejected(TimeAhead) else Accepted(t)
  }

  /** Seconds ahead of the clock, rounded up: what is ahead at all is ahead by a second at least. */
  function Ahead(now: int, t: int): (seconds: int)
    ensures seconds >= 0 && (seconds == 0 <==> t <= now)
    ensures t > now ==> (seconds - 1) * MICROSECONDS < t - now <= seconds * MICROSECONDS
  {
    if t > now then (t - now + MICROSECONDS - 1) / MICROSECONDS else 0
  }

  predicate Unique(xs: seq<string>) {
    forall i, j | 0 <= i < j < |xs| :: xs[i] != xs[j]
  }

  function TakeSnapshot(x: Setting, stream: Stream, t: int, active: set<string>): Snapshot {
    Snapshot(stream, x.iso(t), active, x.digest(stream, x.iso(t), active))
  }

  function AdmitSnapshot(x: Setting, now: int, raw: RawSnapshot): Outcome<(Snapshot, int)> {
    if raw.stream.entity == "" || raw.stream.source == "" || "" in raw.active then Rejected(BadSnapshotFields)
    else if !Unique(raw.active) then Rejected(RepeatedDesignation)
    else
      match AdmitTime(x, now, raw.asOf)
      case Rejected(e) => Rejected(e)
      case Accepted(t) =>
        var snapshot := TakeSnapshot(x, raw.stream, t, Elements(raw.active));
        if snapshot.digest != x.lower(raw.digest) then Rejected(DigestMismatch) else Accepted((snapshot, t))
  }

  /** The admitted snapshots with their instants. */
  datatype Base = Base(snapshots: map<Stream, Snapshot>, instants: map<Stream, int>, skew: int)

  const NO_BASE := Base(map[], map[], 0)

  function AddSnapshot(x: Setting, now: int, base: Base, raw: RawSnapshot): Outcome<Base> {
    match AdmitSnapshot(x, now, raw)
    case Rejected(e) => Rejected(e)
    case Accepted((snapshot, t)) =>
      if raw.stream in base.snapshots then Rejected(RepeatedSnapshot)
      else Accepted(Base(base.snapshots[raw.stream := snapshot], base.instants[raw.stream := t],
                         Larger(base.skew, Ahead(now, t))))
  }

  function AdmitSnapshots(x: Setting, now: int, raws: seq<RawSnapshot>): Outcome<Base> {
    if raws == [] then Accepted(NO_BASE)
    else
      match AdmitSnapshots(x, now, raws[..|raws| - 1])
      case Rejected(e) => Rejected(e)
      case Accepted(base) => AddSnapshot(x, now, base, raws[|raws| - 1])
  }

  function IdentityOf(e: Event): Identity { Identity(e.stream, e.id) }

  /** An admitted event with its instant and the digest of its content. */
  datatype Row = Row(event: Event, instant: int, seal: nat)

  datatype Intake = Intake(kept: map<Identity, Row>, duplicates: seq<string>, skew: int)

  function RowOf(x: Setting, now: int, e: Event): Outcome<Row> {
    match AdmitTime(x, now, e.time)
    case Rejected(error) => Rejected(error)
    case Accepted(t) =>
      match x.seal(t, e.kind, e.revision, e.state, CanonicalPayload(e.payload))
      case None => Rejected(NotSerialisable)
      case Some(seal) => Accepted(Row(e, t, seal))
  }

  function AddEvent(x: Setting, now: int, base: Base, intake: Intake, e: Event): Outcome<Intake> {
    match RowOf(x, now, e)
    case Rejected(error) => Rejected(error)
    case Accepted(row) =>
      var skew := Larger(intake.skew, Ahead(now, row.instant));
      var identity := IdentityOf(e);
      if identity in intake.kept then
        var existing := intake.kept[identity];
        if existing.seal != row.seal then Rejected(ConflictingDuplicate)
        else
          Accepted(Intake(if Below(e.time, existing.event.time) then intake.kept[identity := row] else intake.kept,
                          intake.duplicates + [e.id], skew))
      else if e.stream in base.instants && row.instant <= base.instants[e.stream] then Rejected(NotAfterSnapshot)
      else Accepted(Intake(intake.kept[identity := row], intake.duplicates, skew))
  }

  function AdmitEvents(x: Setting, now: int, base: Base, events: seq<Event>): Outcome<Intake> {
    if events == [] then Accepted(Intake(map[], [], base.skew))
    else
      match AdmitEvents(x, now, base, events[..|events| - 1])
      case Rejected(e) => Rejected(e)
      case Accepted(intake) => AddEvent(x, now, base, intake, events[|events| - 1])
  }

  // ----------------------------------------------------------- replay in order

  function Slots(kept: map<Identity, Row>): set<Slot> {
    set i | i in kept :: Slot(kept[i].instant, i)
  }

  function Pick(kept: map<Identity, Row>, slots: seq<Slot>): (rows: seq<Row>)
    requires forall s | s in slots :: s.identity in kept
    ensures |rows| == |slots|
    ensures forall i | 0 <= i < |rows| :: rows[i] == kept[slots[i].identity]
  {
    seq(|slots|, i requires 0 <= i < |slots| => kept[slots[i].identity])
  }

  /** The kept events in replay order. */
  function InOrder(kept: map<Identity, Row>): seq<Row> {
    Pick(kept, Ordered(Slots(kept)))
  }

  function Shown(x: Setting, v: Value): string {
    if v.Text? then v.text else x.show(v)
  }

  predicate Names(payload: Payload, field: string) {
    field in payload && Truthy(payload[field])
  }

  /** The value that names the designation, if the payload has one. */
  function Chosen(payload: Payload): Option<Value> {
    if Names(payload, "designation_id") then Some(payload["designation_id"])
    else if Names(payload, "target_event_id") then Some(payload["target_event_id"])
    else None
  }

  function DesignationOf(x: Setting, e: Event): string {
    match Chosen(e.payload)
    case Some(v) => Shown(x, v)
    case None => e.id
  }

  datatype Deed = Add | Remove

  datatype Operation = Operation(stream: Stream, designation: string, instant: int)

  datatype Removal = Removal(stream: Stream, designation: string, id: string)

  datatype Tally = Tally(
    active: map<Stream, set<string>>,
    asOf: map<Stream, int>,
    history: map<Stream, seq<Event>>,
    operations: map<Operation, set<Deed>>,
    unmatched: seq<Removal>,
    changes: seq<string>)

  predicate IsRemoval(kind: Kind) { kind.DesignationRemoved? || kind.Delisted? }

  function Lookup<K, V>(m: map<K, V>, k: K, default: V): V {
    if k in m then m[k] else default
  }

  function Begin(base: Base): Tally {
    Tally(map k | k in base.snapshots :: base.snapshots[k].active, base.instants, map[], map[], [], [])
  }

  function Noted(operations: map<Operation, set<Deed>>, op: Operation, deed: Deed): map<Operation, set<Deed>> {
    operations[op := Lookup(operations, op, {}) + {deed}]
  }

  function Advance(x: Setting, tally: Tally, row: Row): Tally {
    var e := row.event;
    var k := e.stream;
    var active := Lookup(tally.active, k, {});
    var d := DesignationOf(x, e);
    var op := Operation(k, d, row.instant);
    var next := tally.(
      active := tally.active[k := active],
      asOf := tally.asOf[k := Larger(Lookup(tally.asOf, k, row.instant), row.instant)],
      history := tally.history[k := Lookup(tally.history, k, []) + [e]]);
    if e.kind.DesignationAdded? then
      next.(active := tally.active[k := active + {d}], operations := Noted(tally.operations, op, Add))
    else if IsRemoval(e.kind) then
      next.(active := tally.active[k := active - {d}],
            operations := Noted(tally.operations, op, Remove),
            unmatched := if d in active then tally.unmatched else tally.unmatched + [Removal(k, d, e.id)])
    else
      next.(changes := tally.changes + [e.id])
  }

  function Fold(x: Setting, start: Tally, rows: seq<Row>): Tally {
    if rows == [] then start
    else Advance(x, Fold(x, start, rows[..|rows| - 1]), rows[|rows| - 1])
  }

  function Ambiguities(tally: Tally): set<Operation> {
    set op | op in tally.operations && tally.operations[op] == {Add, Remove}
  }

  // ---------------------------------------------------------------- the report

  /** A replayed event as the report lists it; an object in a payload has no order there. */
  datatype Told = Told(
    id: string, stream: Stream, time: string, kind: Kind, revision: string, state: SourceState,
    payload: map<string, Canon>)

  function Tell(e: Event): Told {
    Told(e.id, e.stream, e.time, e.kind, e.revision, e.state, CanonicalPayload(e.payload))
  }

  type Verifier = (Stream, seq<Event>, Option<Snapshot>) -> bool

  datatype Reason =
    | OpaquePriorIds | UnverifiedHistory | CallerReportedIncomplete | IdentityConflicts | DegradedSource
    | UnmatchedRemoval | OrderingAmbiguity

  datatype Screening = ScreeningUnavailable | Clear | ReviewRequired

  datatype TruthLabel = LabelUnavailable | Measured | Reported

  datatype IdentityState = Complete | Conflicted | Incomplete

  datatype HistoryState = PriorIdsOpaque | HistoryUnverified | SnapshotContinuation | FullReplay

  datatype Report = Report(
    entities: set<string>,
    recovered: seq<Told>,
    duplicates: multiset<string>,
    active: map<Stream, set<string>>,
    reasons: set<Reason>,
    unmatched: seq<Removal>,
    ambiguities: set<Operation>,
    opaqueMatches: set<string>,
    snapshots: map<Stream, Snapshot>,
    changes: seq<string>,
    identity: IdentityState,
    degraded: bool,
    screening: Screening,
    historyVerified: bool,
    history: HistoryState,
    skew: int,
    truth: TruthLabel)

  /** What the caller claims or holds besides events and snapshots. */
  datatype Claim = Claim(priorIds: seq<string>, chainComplete: bool, conflicts: nat, verifier: Option<Verifier>)

  function HistoryOf(tally: Tally, k: Stream): seq<Event> { Lookup(tally.history, k, []) }

  function SnapshotOf(base: Base, k: Stream): Option<Snapshot> {
    if k in base.snapshots then Some(base.snapshots[k]) else None
  }

  predicate HistoryVerified(claim: Claim, base: Base, tally: Tally) {
    && claim.verifier.Some?
    && tally.active.Keys != {}
    && forall k | k in tally.active :: claim.verifier.value(k, HistoryOf(tally, k), SnapshotOf(base, k))
  }

  predicate Degraded(rows: seq<Row>) {
    exists i | 0 <= i < |rows| :: rows[i].event.state != Observed
  }

  predicate SomeObserved(rows: seq<Row>) {
    exists i | 0 <= i < |rows| :: rows[i].event.state == Observed
  }

  predicate IsStale(now: int, rows: seq<Row>) {
    || Degraded(rows)
    || exists i | 0 <= i < |rows| :: rows[i].event.state == Observed && now - rows[i].instant > STALE_AFTER
  }

  function Reasons(claim: Claim, verified: bool, rows: seq<Row>, tally: Tally): set<Reason> {
    (if claim.priorIds != [] then {OpaquePriorIds} else {})
    + (if !verified then {UnverifiedHistory} else {})
    + (if !claim.chainComplete then {CallerReportedIncomplete} else {})
    + (if claim.conflicts != 0 then {IdentityConflicts} else {})
    + (if Degraded(rows) then {DegradedSource} else {})
    + (if tally.unmatched != [] then {UnmatchedRemoval} else {})
    + (if Ambiguities(tally) != {} then {OrderingAmbiguity} else {})
  }

  predicate NoneActive(active: map<Stream, set<string>>) {
    forall k | k in active :: active[k] == {}
  }

  function Screen(now: int, rows: seq<Row>, reasons: set<Reason>, active: map<Stream, set<string>>): Screening {
    if !SomeObserved(rows) then ScreeningUnavailable
    else if reasons == {} && NoneActive(active) && !IsStale(now, rows) then Clear
    else ReviewRequired
  }

  function Snapshots(x: Setting, tally: Tally): map<Stream, Snapshot> {
    map k | k in tally.active && k in tally.asOf :: TakeSnapshot(x, k, tally.asOf[k], tally.active[k])
  }

  function ReportOn(x: Setting, now: int, claim: Claim, base: Base, intake: Intake, rows: seq<Row>, tally: Tally)
    : Report
  {
    var recovered := seq(|rows|, i requires 0 <= i < |rows| => Tell(rows[i].event));
    var ids := set e | e in recovered :: e.id;
    var verified := HistoryVerified(claim, base, tally);
    var reasons := Reasons(claim, verified, rows, tally);
    var complete := claim.chainComplete && verified && claim.priorIds == [] && claim.conflicts == 0 && !Degraded(rows);
    Report(
      (set e | e in recovered :: e.stream.entity) + (set k | k in base.snapshots :: k.entity),
      recovered,
      multiset(intake.duplicates),
      tally.active,
      reasons,
      tally.unmatched,
      Ambiguities(tally),
      ids * Elements(claim.priorIds),
      Snapshots(x, tally),
      tally.changes,
      if complete then Complete else if claim.conflicts != 0 then Conflicted else Incomplete,
      Degraded(rows),
      Screen(now, rows, reasons, tally.active),
      verified,
      if claim.priorIds != [] then PriorIdsOpaque
      else if !verified then HistoryUnverified
      else if base.snapshots != map[] then SnapshotContinuation
      else FullReplay,
      intake.skew,
      if !SomeObserved(rows) then LabelUnavailable
      else if complete && !IsStale(now, rows) then Measured
      else Reported)
  }

  function Replay(x: Setting, now: int, claim: Claim, raws: seq<RawSnapshot>, incoming: seq<Event>)
    : Outcome<Report>
  {
    match AdmitSnapshots(x, now, raws)
    case Rejected(e) => Rejected(e)
    case Accepted(base) =>
      match AdmitEvents(x, now, base, incoming)
      case Rejected(e) => Rejected(e)
      case Accepted(intake) =>
        var rows := InOrder(intake.kept);
        Accepted(ReportOn(x, now, claim, base, intake, rows, Fold(x, Begin(base), rows)))
  }

  // --------------------------------------------------------- the replay itself

  lemma {:induction false} RejectedSnapshotStays(x: Setting, now: int, raws: seq<RawSnapshot>, n: nat)
    requires n <= |raws| && AdmitSnapshots(x, now, raws[..n]).Rejected?
    ensures AdmitSnapshots(x, now, raws) == AdmitSnapshots(x, now, raws[..n])
  {
    if n == |raws| {
      assert raws[..n] == raws;
    } else {
      var m := |raws| - 1;
      assert raws[..m][..n] == raws[..n];
      RejectedSnapshotStays(x, now, raws[..m], n);
    }
  }

  lemma {:induction false} RejectedEventStays(x: Setting, now: int, base: Base, events: seq<Event>, n: nat)
    requires n <= |events| && AdmitEvents(x, now, base, events[..n]).Rejected?
    ensures AdmitEvents(x, now, base, events) == AdmitEvents(x, now, base, events[..n])
  {
    if n == |events| {
      assert events[..n] == events;
    } else {
      var m := |events| - 1;
      assert events[..m][..n] == events[..n];
      RejectedEventStays(x, now, base, events[..m], n);
    }
  }

  method ReadSnapshots(x: Setting, now: int, raws: seq<RawSnapshot>) returns (r: Outcome<Base>)
    ensures r == AdmitSnapshots(x, now, raws)
  {
    var snapshots: map<Stream, Snapshot>, instants: map<Stream, int>, skew := map[], map[], 0;
    for i := 0 to |raws|
      invariant AdmitSnapshots(x, now, raws[..i]) == Accepted(Base(snapshots, instants, skew))
    {
      var raw := raws[i];
      assert raws[..i + 1][..i] == raws[..i];
      match AdmitSnapshot(x, now, raw)
      case Rejected(e) =>
        RejectedSnapshotStays(x, now, raws, i + 1);
        return Rejected(e);
      case Accepted((snapshot, t)) =>
        if raw.stream in snapshots {
          RejectedSnapshotStays(x, now, raws, i + 1);
          return Rejected(RepeatedSnapshot);
        }
        snapshots := snapshots[raw.stream := snapshot];
        instants := instants[raw.stream := t];
        skew := Larger(skew, Ahead(now, t));
    }
    assert raws[..|raws|] == raws;
    r := Accepted(Base(snapshots, instants, skew));
  }

  method ReadEvents(x: Setting, now: int, base: Base, events: seq<Event>) returns (r: Outcome<Intake>)
    ensures r == AdmitEvents(x, now, base, events)
  {
    var kept: map<Identity, Row>, duplicates: seq<string>, skew := map[], [], base.skew;
    for i := 0 to |events|
      invariant AdmitEvents(x, now, base, events[..i]) == Accepted(Intake(kept, duplicates, skew))
    {
      var e := events[i];
      assert events[..i + 1][..i] == events[..i];
      match RowOf(x, now, e)
      case Rejected(error) =>
        RejectedEventStays(x, now, base, events, i + 1);
        return Rejected(error);
      case Accepted(row) =>
        skew := Larger(skew, Ahead(now, row.instant));
        var identity := IdentityOf(e);
        if identity in kept {
          if kept[identity].seal != row.seal {
            RejectedEventStays(x, now, base, events, i + 1);
            return Rejected(ConflictingDuplicate);
          }
          duplicates := duplicates + [e.id];
          if Below(e.time, kept[identity].event.time) {
            kept := kept[identity := row];
          }
        } else {
          if e.stream in base.instants && row.instant <= base.instants[e.stream] {
            RejectedEventStays(x, now, base, events, i + 1);
            return Rejected(NotAfterSnapshot);
          }
          kept := kept[identity := row];
        }
    }
    assert events[..|events|] == events;
    r := Accepted(Intake(kept, duplicates, skew));
  }

  method FoldInOrder(x: Setting, base: Base, rows: seq<Row>) returns (tally: Tally)
    ensures tally == Fold(x, Begin(base), rows)
  {
    var active := map k | k in base.snapshots :: base.snapshots[k].active;
    var asOf := base.instants;
    var history: map<Stream, seq<Event>> := map[];
    var operations: map<Operation, set<Deed>> := map[];
    var unmatched: seq<Removal> := [];
    var changes: seq<string> := [];
    for i := 0 to |rows|
      invariant Fold(x, Begin(base), rows[..i]) == Tally(active, asOf, history, operations, unmatched, changes)
    {
      var e, t := rows[i].event, rows[i].instant;
      var k := e.stream;
      assert rows[..i + 1][..i] == rows[..i];
      history := history[k := Lookup(history, k, []) + [e]];
      asOf := asOf[k := Larger(Lookup(asOf, k, t), t)];
      var current := Lookup(active, k, {});
      var d := DesignationOf(x, e);
      if e.kind.DesignationAdded? {
        current := current + {d};
        operations := Noted(operations, Operation(k, d, t), Add);
      } else if IsRemoval(e.kind) {
        operations := Noted(operations, Operation(k, d, t), Remove);
        if d in current {
          current := current - {d};
        } else {
          unmatched := unmatched + [Removal(k, d, e.id)];
          assert current == current - {d};
        }
      } else {
        changes := changes + [e.id];
      }
      active := active[k := current];
    }
    assert rows[..|rows|] == rows;
    tally := Tally(active, asOf, history, operations, unmatched, changes);
  }

  method ReplayIdentityLifecycle(x: Setting, now: int, claim: Claim, raws: seq<RawSnapshot>, incoming: seq<Event>)
    returns (r: Outcome<Report>)
    ensures r == Replay(x, now, claim, raws, incoming)
  {
    var opening := ReadSnapshots(x, now, raws);
    if opening.Rejected? { return Rejected(opening.error); }
    var base := opening.value;
    var reading := ReadEvents(x, now, base, incoming);
    if reading.Rejected? { return Rejected(reading.error); }
    var rows := InOrder(reading.value.kept);
    var tally := FoldInOrder(x, base, rows);
    r := Accepted(ReportOn(x, now, claim, base, reading.value, rows, tally));
  }
}
