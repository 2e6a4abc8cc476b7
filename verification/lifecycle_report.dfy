/**
 The report of a replay, read off the events: which value of a payload names a designation, which kinds add,
 remove or change, in which order events are replayed, and what each field of an accepted report then says.
 */
module LifecycleReport {
  import opened Prelude
  import opened Chronology
  import opened Payloads
  import opened Lifecycle
  import opened LifecycleOrder
  import opened LifecycleAdmission
  import opened LifecycleScreening

  // --------------------------------------------------------------- single events

  /** The field is there and holds something: not null, false, zero, or an empty text, list or object. */
  predicate Filled(p: Payload, field: string) {
    && field in p
    && var v := p[field];
      && v != Null && v != Boolean(false) && v != Integer(0) && v != Decimal("0.0") && v != Decimal("-0.0")
      && v != Text("") && v != Items([]) && v != Fields([])
  }

  function TextOf(x: Setting, v: Value): string {
    match v
    case Text(t) => t
    case _ => x.show(v)
  }

  /** The designation is named by `designation_id`, else by `target_event_id`, else by the id of the event. */
  function Named(x: Setting, e: Event): string {
    if Filled(e.payload, "designation_id") then TextOf(x, e.payload["designation_id"])
    else if Filled(e.payload, "target_event_id") then TextOf(x, e.payload["target_event_id"])
    else e.id
  }

  lemma NamedExactly(x: Setting, e: Event)
    ensures DesignationOf(x, e) == Named(x, e)
  {
  }

  predicate AddsTo(x: Setting, e: Event, k: Stream, d: string) {
    e.stream == k && e.kind == DesignationAdded && Named(x, e) == d
  }

  predicate RemovesFrom(x: Setting, e: Event, k: Stream, d: string) {
    e.stream == k && (e.kind == DesignationRemoved || e.kind == Delisted) && Named(x, e) == d
  }

  lemma TouchesExactly(x: Setting, row: Row, k: Stream, d: string)
    ensures Touches(x, row, k, d) <==> AddsTo(x, row.event, k, d) || RemovesFrom(x, row.event, k, d)
    ensures Touches(x, row, k, d) ==> (DeedOf(row.event.kind) == Some(Add) <==> AddsTo(x, row.event, k, d))
  {
    hide Named, DesignationOf;
    NamedExactly(x, row.event);
  }

  // ------------------------------------------------------------------------ order

  /** By instant, then by entity, source and id. */
  predicate ReplayedBefore(a: Row, b: Row) {
    var e, f := a.event, b.event;
    || a.instant < b.instant
    || (a.instant == b.instant
        && (|| TextBefore(e.stream.entity, f.stream.entity)
            || (e.stream.entity == f.stream.entity
                && (|| TextBefore(e.stream.source, f.stream.source)
                    || (e.stream.source == f.stream.source && TextBefore(e.id, f.id))))))
  }

  lemma BeforeExactly(a: Row, b: Row)
    ensures Before(SlotOf(a), SlotOf(b)) <==> ReplayedBefore(a, b)
  {
    hide Below, TextBefore;
    BelowExactly(a.event.stream.entity, b.event.stream.entity);
    BelowExactly(a.event.stream.source, b.event.stream.source);
    BelowExactly(a.event.id, b.event.id);
  }

  // ---------------------------------------------------------------------- admission

  /** The instant can be read and is at most five minutes ahead. */
  predicate TimeAdmitted(x: Setting, now: int, text: string) {
    x.parse(text).Some? && x.parse(text).value <= now + 300_000_000
  }

  lemma RowExactly(x: Setting, now: int, e: Event, row: Row)
    ensures RowOf(x, now, e) == Accepted(row) <==>
      && TimeAdmitted(x, now, e.time) && row.event == e && row.instant == x.parse(e.time).value
      && x.seal(row.instant, e.kind, e.revision, e.state, CanonicalPayload(e.payload)) == Some(row.seal)
  {
  }

  /** The snapshot is named, lists no designation twice, is not ahead of the clock, and carries its own digest. */
  predicate SnapshotFit(x: Setting, now: int, raw: RawSnapshot) {
    && raw.stream.entity != "" && raw.stream.source != "" && "" !in raw.active
    && (forall i, j | 0 <= i < j < |raw.active| :: raw.active[i] != raw.active[j])
    && TimeAdmitted(x, now, raw.asOf)
    && x.lower(raw.digest) == x.digest(raw.stream, x.iso(x.parse(raw.asOf).value), set d | d in raw.active)
  }

  lemma SnapshotExactly(x: Setting, now: int, raw: RawSnapshot)
    ensures AdmitSnapshot(x, now, raw).Accepted? <==> SnapshotFit(x, now, raw)
    ensures AdmitSnapshot(x, now, raw).Accepted? ==>
      && AdmitSnapshot(x, now, raw).value.1 == x.parse(raw.asOf).value
      && AdmitSnapshot(x, now, raw).value.0.active == set d | d in raw.active
  {
    assert Elements(raw.active) == set d | d in raw.active;
  }

  predicate StreamsDiffer(raws: seq<RawSnapshot>) {
    forall i, j | 0 <= i < j < |raws| :: raws[i].stream != raws[j].stream
  }

  predicate AllFit(x: Setting, now: int, raws: seq<RawSnapshot>) {
    forall i | 0 <= i < |raws| :: SnapshotFit(x, now, raws[i])
  }

  lemma FitFront(x: Setting, now: int, raws: seq<RawSnapshot>)
    requires raws != []
    ensures var n := |raws| - 1;
      && (AllFit(x, now, raws) <==> AllFit(x, now, raws[..n]) && SnapshotFit(x, now, raws[n]))
      && (StreamsDiffer(raws)
          <==> StreamsDiffer(raws[..n]) && forall i | 0 <= i < n :: raws[..n][i].stream != raws[n].stream)
  {
    hide SnapshotFit;
    var front := raws[..|raws| - 1];
    assert forall i | 0 <= i < |front| :: front[i] == raws[i];
  }

  /** The snapshots are taken if and only if each is fit and no two are of one stream. */
  lemma {:induction false} SnapshotsExactly(x: Setting, now: int, raws: seq<RawSnapshot>)
    ensures AdmitSnapshots(x, now, raws).Accepted? <==> AllFit(x, now, raws) && StreamsDiffer(raws)
  {
    if raws != [] {
      var n := |raws| - 1;
      hide AdmitSnapshot, SnapshotFit, TimeAdmitted, AllFit, StreamsDiffer;
      SnapshotsExactly(x, now, raws[..n]);
      SnapshotExactly(x, now, raws[n]);
      FitFront(x, now, raws);
      if AdmitSnapshots(x, now, raws[..n]).Accepted? { BaseExactly(x, now, raws[..n], raws[n].stream); }
    }
  }

  /** The event can be admitted: in time, serialisable, and later than what a snapshot says of its stream. */
  predicate EventFit(x: Setting, now: int, base: Base, e: Event) {
    && TimeAdmitted(x, now, e.time) && SealOf(x, e).Some?
    && (e.stream in base.instants ==> base.instants[e.stream] < x.parse(e.time).value)
  }

  /** The digest of the content of an event with a readable time. */
  function SealOf(x: Setting, e: Event): Option<nat>
    requires x.parse(e.time).Some?
  {
    x.seal(x.parse(e.time).value, e.kind, e.revision, e.state, CanonicalPayload(e.payload))
  }

  /** The events are taken if and only if each is fit and those of one identity have one content. */
  lemma EventsExactly(x: Setting, now: int, base: Base, events: seq<Event>)
    requires SealsFaithful(x)
    ensures AdmitEvents(x, now, base, events).Accepted? <==>
      && (forall e | e in events :: EventFit(x, now, base, e))
      && forall e, f | e in events && f in events && e.stream == f.stream && e.id == f.id ::
           SealOf(x, e) == SealOf(x, f)
  {
    hide SealsFaithful, AdmitEvents, RowOf, SealOf;
    AdmittedExactly(x, now, base, events);
    forall e { FitExactly(x, now, base, e); }
  }

  lemma FitExactly(x: Setting, now: int, base: Base, e: Event)
    ensures Admissible(x, now, base, e) <==> EventFit(x, now, base, e)
    ensures EventFit(x, now, base, e) ==>
      RowOf(x, now, e).Accepted? && SealOf(x, e) == Some(RowOf(x, now, e).value.seal)
  {
  }

  lemma {:induction false} BaseExactly(x: Setting, now: int, raws: seq<RawSnapshot>, k: Stream)
    requires AdmitSnapshots(x, now, raws).Accepted?
    ensures var base := AdmitSnapshots(x, now, raws).value;
      && (k in base.snapshots <==> exists i :: 0 <= i < |raws| && raws[i].stream == k)
      && (k in base.snapshots <==> k in base.instants)
      && forall i | 0 <= i < |raws| && raws[i].stream == k ::
           && TimeAdmitted(x, now, raws[i].asOf) && base.instants[k] == x.parse(raws[i].asOf).value
           && base.snapshots[k].active == set d | d in raws[i].active
  {
    if raws != [] {
      var n := |raws| - 1;
      hide AdmitSnapshot, TimeAdmitted;
      BaseExactly(x, now, raws[..n], k);
      SnapshotExactly(x, now, raws[n]);
      assert forall i | 0 <= i < n :: raws[..n][i] == raws[i];
    }
  }

  // ---------------------------------------------------------------------- the events

  /** Strictly in replay order, each an event handed in at the instant its time names. */
  ghost predicate InReplayOrder(x: Setting, now: int, incoming: seq<Event>, rows: seq<Row>) {
    && (forall i, j | 0 <= i < j < |rows| :: ReplayedBefore(rows[i], rows[j]))
    && forall r | r in rows ::
         r.event in incoming && TimeAdmitted(x, now, r.event.time) && r.instant == x.parse(r.event.time).value
  }

  lemma KeptInOrder(kept: map<Identity, Row>)
    requires WellKept(kept)
    ensures var rows := InOrder(kept);
      forall i, j | 0 <= i < j < |rows| :: ReplayedBefore(rows[i], rows[j])
  {
    hide Pick, Before, ReplayedBefore, WellKept;
    InOrderSorted(kept);
    var rows, slots := InOrder(kept), Ordered(Slots(kept));
    forall i, j | 0 <= i < j < |rows| ensures ReplayedBefore(rows[i], rows[j]) {
      assert SlotOf(rows[i]) == slots[i] && SlotOf(rows[j]) == slots[j];
      assert Before(slots[i], slots[j]);
      BeforeExactly(rows[i], rows[j]);
    }
  }

  lemma CopyIdentity(e: Event, f: Event)
    requires CopyOf(e, f)
    ensures IdentityOf(f) == IdentityOf(e)
  {
  }

  lemma RowsInOrder(x: Setting, now: int, base: Base, incoming: seq<Event>)
    requires SealsFaithful(x) && AdmitEvents(x, now, base, incoming).Accepted?
    ensures InReplayOrder(x, now, incoming, InOrder(AdmitEvents(x, now, base, incoming).value.kept))
  {
    hide SealsFaithful, AdmitEvents, InOrder, RowOf, ReplayedBefore, KeptRight, AllAdmissible, AllCompatible, SkewRight,
         Admissible, WellKept;
    var kept := AdmitEvents(x, now, base, incoming).value.kept;
    AdmissionSound(x, now, base, incoming);
    KeptWell(x, now, incoming, kept);
    KeptInOrder(kept);
    RowsAreEvents(x, now, base, incoming);
    forall r | r in InOrder(kept)
      ensures TimeAdmitted(x, now, r.event.time) && r.instant == x.parse(r.event.time).value
    {
      RowExactly(x, now, r.event, r);
    }
  }

  /** Every event handed in is replayed once, as itself or as one of its copies, and in order. */
  lemma RowsExactly(x: Setting, now: int, base: Base, incoming: seq<Event>)
    requires SealsFaithful(x) && AdmitEvents(x, now, base, incoming).Accepted?
    ensures var rows := InOrder(AdmitEvents(x, now, base, incoming).value.kept);
      && InReplayOrder(x, now, incoming, rows)
      && forall e | e in incoming :: exists r :: r in rows && CopyOf(e, r.event) && IdentityOf(r.event) == IdentityOf(e)
  {
    hide SealsFaithful, AdmitEvents, InOrder, CopyOf, InReplayOrder, IdentityOf;
    RowsInOrder(x, now, base, incoming);
    var rows := InOrder(AdmitEvents(x, now, base, incoming).value.kept);
    forall e | e in incoming
      ensures exists r :: r in rows && CopyOf(e, r.event) && IdentityOf(r.event) == IdentityOf(e)
    {
      var i := EventReplayed(x, now, base, incoming, e);
      CopyIdentity(e, rows[i].event);
      assert rows[i] in rows;
    }
  }

  // --------------------------------------------------------------------- designations

  predicate Concerns(x: Setting, e: Event, k: Stream, d: string) { AddsTo(x, e, k, d) || RemovesFrom(x, e, k, d) }

  /** The last event on the designation adds it, or there is none and it was there at the start. */
  ghost predicate EndsActive(x: Setting, rows: seq<Row>, k: Stream, d: string, carried: bool) {
    || (exists i :: && 0 <= i < |rows| && AddsTo(x, rows[i].event, k, d)
                    && forall j | i < j < |rows| :: !Concerns(x, rows[j].event, k, d))
    || (carried && forall j | 0 <= j < |rows| :: !Concerns(x, rows[j].event, k, d))
  }

  lemma LiveExactly(x: Setting, start: map<Stream, set<string>>, rows: seq<Row>, k: Stream, d: string)
    ensures Live(x, start, rows, k, d) <==> EndsActive(x, rows, k, d, k in start && d in start[k])
  {
    hide Touches, AddsTo, RemovesFrom;
    forall i | 0 <= i < |rows|
      ensures Touches(x, rows[i], k, d) <==> Concerns(x, rows[i].event, k, d)
      ensures Touches(x, rows[i], k, d) ==>
                (DeedOf(rows[i].event.kind) == Some(Add) <==> AddsTo(x, rows[i].event, k, d))
    {
      TouchesExactly(x, rows[i], k, d);
    }
    var i := LastTouch(x, rows, k, d);
    if i >= 0 { assert Touches(x, rows[i], k, d); }
    if j :| 0 <= j < |rows| && AddsTo(x, rows[j].event, k, d)
            && forall m | j < m < |rows| :: !Concerns(x, rows[m].event, k, d)
    {
      assert Touches(x, rows[j], k, d);
      assert i == j;
    }
  }

  predicate Carried(raws: seq<RawSnapshot>, k: Stream, d: string) {
    exists i :: 0 <= i < |raws| && raws[i].stream == k && d in raws[i].active
  }

  /**
   A designation of a stream is active in the report if and only if the last event of the stream that adds,
   removes or delists it is an addition, or there is none and a snapshot handed in carried it.
   */
  lemma ActiveExactly(x: Setting, now: int, claim: Claim, raws: seq<RawSnapshot>, incoming: seq<Event>, k: Stream,
                      d: string)
    requires Replay(x, now, claim, raws, incoming).Accepted?
    ensures var active := Replay(x, now, claim, raws, incoming).value.active;
      var rows := InOrder(AdmitEvents(x, now, AdmitSnapshots(x, now, raws).value, incoming).value.kept);
      k in active && d in active[k] <==> EndsActive(x, rows, k, d, Carried(raws, k, d))
  {
    hide AdmitSnapshots, AdmitEvents, InOrder, Fold, Live, EndsActive, TimeAdmitted;
    AcceptedParts(x, now, claim, raws, incoming);
    var base := AdmitSnapshots(x, now, raws).value;
    var rows := InOrder(AdmitEvents(x, now, base, incoming).value.kept);
    ActiveIsLive(x, Begin(base), rows, k, d);
    LiveExactly(x, Begin(base).active, rows, k, d);
    CarriedExactly(x, now, raws, k, d);
  }

  lemma CarriedExactly(x: Setting, now: int, raws: seq<RawSnapshot>, k: Stream, d: string)
    requires AdmitSnapshots(x, now, raws).Accepted?
    ensures var start := Begin(AdmitSnapshots(x, now, raws).value).active;
      k in start && d in start[k] <==> Carried(raws, k, d)
  {
    hide AdmitSnapshots, TimeAdmitted;
    BaseExactly(x, now, raws, k);
  }

  /** The ids of the events of the four kinds that change an identity, in replay order. */
  function ChangeIds(rows: seq<Row>): seq<string> {
    if rows == [] then []
    else
      var e := rows[|rows| - 1].event;
      ChangeIds(rows[..|rows| - 1])
      + (if e.kind in {IdentityChanged, NameChanged, FlagChanged, OwnershipChanged} then [e.id] else [])
  }

  /** The removals and delistings that found nothing, in replay order. */
  ghost function Missed(x: Setting, start: map<Stream, set<string>>, rows: seq<Row>): seq<Removal> {
    if rows == [] then []
    else
      var front, e := rows[..|rows| - 1], rows[|rows| - 1].event;
      var k, d := e.stream, Named(x, e);
      Missed(x, start, front)
      + (if (e.kind == DesignationRemoved || e.kind == Delisted)
            && !EndsActive(x, front, k, d, k in start && d in start[k])
         then [Removal(k, d, e.id)] else [])
  }

  lemma AdvanceLists(x: Setting, tally: Tally, row: Row)
    ensures var e, next := row.event, Advance(x, tally, row);
      && next.changes == tally.changes
           + (if e.kind in {IdentityChanged, NameChanged, FlagChanged, OwnershipChanged} then [e.id] else [])
      && next.unmatched == tally.unmatched
           + (if (e.kind == DesignationRemoved || e.kind == Delisted)
                 && Named(x, e) !in Lookup(tally.active, e.stream, {})
              then [Removal(e.stream, Named(x, e), e.id)] else [])
  {
    hide DesignationOf, Named, Noted;
    NamedExactly(x, row.event);
  }

  /** The reported changes and unmatched removals are exactly these, in replay order. */
  lemma {:induction false} ListsExactly(x: Setting, base: Base, rows: seq<Row>)
    ensures Fold(x, Begin(base), rows).changes == ChangeIds(rows)
    ensures Fold(x, Begin(base), rows).unmatched == Missed(x, Begin(base).active, rows)
  {
    hide Advance, Live, EndsActive, Named;
    if rows != [] {
      var front, e := rows[..|rows| - 1], rows[|rows| - 1].event;
      ListsExactly(x, base, front);
      AdvanceLists(x, Fold(x, Begin(base), front), rows[|rows| - 1]);
      ActiveIsLive(x, Begin(base), front, e.stream, Named(x, e));
      LiveExactly(x, Begin(base).active, front, e.stream, Named(x, e));
    }
  }

  /** The changes and unmatched removals of a report are exactly these. */
  lemma ReportedLists(x: Setting, now: int, claim: Claim, raws: seq<RawSnapshot>, incoming: seq<Event>)
    requires Replay(x, now, claim, raws, incoming).Accepted?
    ensures var r := Replay(x, now, claim, raws, incoming).value;
      var base := AdmitSnapshots(x, now, raws).value;
      var rows := InOrder(AdmitEvents(x, now, base, incoming).value.kept);
      r.changes == ChangeIds(rows) && r.unmatched == Missed(x, Begin(base).active, rows)
  {
    hide AdmitSnapshots, AdmitEvents, InOrder, Fold, ChangeIds, Missed;
    AcceptedParts(x, now, claim, raws, incoming);
    var base := AdmitSnapshots(x, now, raws).value;
    ListsExactly(x, base, InOrder(AdmitEvents(x, now, base, incoming).value.kept));
  }

  // ---------------------------------------------------------------------- the verdicts

  predicate SomeSeen(rows: seq<Row>) { exists i :: 0 <= i < |rows| && rows[i].event.state == SourceState.Observed }

  predicate SomeUnseen(rows: seq<Row>) { exists i :: 0 <= i < |rows| && rows[i].event.state != SourceState.Observed }

  /** Something was observed more than 365 days ago. */
  predicate SomeOld(now: int, rows: seq<Row>) {
    exists i :: && 0 <= i < |rows| && rows[i].event.state == SourceState.Observed
                && now - rows[i].instant > 31_536_000_000_000
  }

  lemma ReasonsExactly(claim: Claim, verified: bool, rows: seq<Row>, tally: Tally)
    ensures var reasons := Reasons(claim, verified, rows, tally);
      && (OpaquePriorIds in reasons <==> claim.priorIds != [])
      && (UnverifiedHistory in reasons <==> !verified)
      && (CallerReportedIncomplete in reasons <==> !claim.chainComplete)
      && (IdentityConflicts in reasons <==> claim.conflicts > 0)
      && (DegradedSource in reasons <==> SomeUnseen(rows))
      && (UnmatchedRemoval in reasons <==> tally.unmatched != [])
      && (OrderingAmbiguity in reasons <==> Ambiguities(tally) != {})
  {
    hide Ambiguities;
    assert Degraded(rows) <==> SomeUnseen(rows);
  }

  lemma StatesSeen(now: int, rows: seq<Row>)
    ensures Degraded(rows) <==> SomeUnseen(rows)
    ensures SomeObserved(rows) <==> SomeSeen(rows)
    ensures IsStale(now, rows) <==> SomeUnseen(rows) || SomeOld(now, rows)
  {
  }

  /** What each verdict of an accepted report says. */
  lemma VerdictsExactly(x: Setting, now: int, claim: Claim, raws: seq<RawSnapshot>, incoming: seq<Event>)
    requires Replay(x, now, claim, raws, incoming).Accepted?
    ensures var r := Replay(x, now, claim, raws, incoming).value;
      var rows := InOrder(AdmitEvents(x, now, AdmitSnapshots(x, now, raws).value, incoming).value.kept);
      var complete := claim.chainComplete && r.historyVerified && claim.priorIds == [] && claim.conflicts == 0
                      && !SomeUnseen(rows);
      && (r.degraded <==> SomeUnseen(rows))
      && (OpaquePriorIds in r.reasons <==> claim.priorIds != [])
      && (UnverifiedHistory in r.reasons <==> !r.historyVerified)
      && (CallerReportedIncomplete in r.reasons <==> !claim.chainComplete)
      && (IdentityConflicts in r.reasons <==> claim.conflicts > 0)
      && (DegradedSource in r.reasons <==> SomeUnseen(rows))
      && (UnmatchedRemoval in r.reasons <==> r.unmatched != [])
      && (OrderingAmbiguity in r.reasons <==> r.ambiguities != {})
      && (r.screening == ScreeningUnavailable <==> !SomeSeen(rows))
      && (r.screening == Clear
          <==> && SomeSeen(rows) && !SomeUnseen(rows) && !SomeOld(now, rows) && r.reasons == {}
               && forall k | k in r.active :: r.active[k] == {})
      && (r.truth == LabelUnavailable <==> !SomeSeen(rows))
      && (r.truth == Measured <==> SomeSeen(rows) && complete && !SomeOld(now, rows))
      && (r.identity == Complete <==> complete)
      && (r.identity == Conflicted <==> claim.conflicts > 0)
      && (r.history == PriorIdsOpaque <==> claim.priorIds != [])
      && (r.history == HistoryUnverified <==> claim.priorIds == [] && !r.historyVerified)
      && (r.history == FullReplay <==> claim.priorIds == [] && r.historyVerified && raws == [])
  {
    hide AdmitSnapshots, AdmitEvents, InOrder, Fold, HistoryVerified, Ambiguities, Reasons, Degraded, SomeObserved,
         IsStale, SomeSeen, SomeUnseen, SomeOld;
    AcceptedParts(x, now, claim, raws, incoming);
    var base := AdmitSnapshots(x, now, raws).value;
    var rows := InOrder(AdmitEvents(x, now, base, incoming).value.kept);
    var tally := Fold(x, Begin(base), rows);
    ReasonsExactly(claim, HistoryVerified(claim, base, tally), rows, tally);
    StatesSeen(now, rows);
    NoSnapshots(x, now, raws);
  }

  lemma NoSnapshots(x: Setting, now: int, raws: seq<RawSnapshot>)
    requires AdmitSnapshots(x, now, raws).Accepted?
    ensures AdmitSnapshots(x, now, raws).value.snapshots == map[] <==> raws == []
  {
    hide TimeAdmitted;
    if raws != [] { BaseExactly(x, now, raws, raws[0].stream); }
  }

  // ----------------------------------------------------------------- what is listed

  /** The rows have the identities of the events. */
  predicate SameIdentities(incoming: seq<Event>, rows: seq<Row>) {
    && (forall i | 0 <= i < |rows| :: rows[i].event in incoming)
    && forall e | e in incoming :: HasIdentity(rows, e.stream, e.id)
  }

  predicate HasIdentity(rows: seq<Row>, k: Stream, id: string) {
    exists i :: 0 <= i < |rows| && rows[i].event.stream == k && rows[i].event.id == id
  }

  lemma RowsIdentities(x: Setting, now: int, base: Base, incoming: seq<Event>)
    requires SealsFaithful(x) && AdmitEvents(x, now, base, incoming).Accepted?
    ensures SameIdentities(incoming, InOrder(AdmitEvents(x, now, base, incoming).value.kept))
  {
    hide SealsFaithful, AdmitEvents, InOrder, CopyOf, RowOf, Admissible, Chronological;
    RowsAreEvents(x, now, base, incoming);
    var rows := InOrder(AdmitEvents(x, now, base, incoming).value.kept);
    assert forall i | 0 <= i < |rows| :: rows[i] in rows;
    forall e | e in incoming ensures HasIdentity(rows, e.stream, e.id) {
      var i := EventReplayed(x, now, base, incoming, e);
      CopyIdentity(e, rows[i].event);
    }
  }

  function EntitiesOf(rows: seq<Row>): set<string> { set i | 0 <= i < |rows| :: rows[i].event.stream.entity }

  function IdsOf(rows: seq<Row>): set<string> { set i | 0 <= i < |rows| :: rows[i].event.id }

  lemma NamesOfRows(incoming: seq<Event>, rows: seq<Row>, name: string)
    requires SameIdentities(incoming, rows)
    ensures name in EntitiesOf(rows) <==> exists e :: e in incoming && e.stream.entity == name
    ensures name in IdsOf(rows) <==> exists e :: e in incoming && e.id == name
  {
    if e :| e in incoming && e.stream.entity == name { assert HasIdentity(rows, e.stream, e.id); }
    if e :| e in incoming && e.id == name { assert HasIdentity(rows, e.stream, e.id); }
  }

  lemma NamesOnReport(x: Setting, now: int, claim: Claim, base: Base, intake: Intake, rows: seq<Row>, tally: Tally)
    ensures var r := ReportOn(x, now, claim, base, intake, rows, tally);
      && r.entities == EntitiesOf(rows) + (set k | k in base.snapshots :: k.entity)
      && r.opaqueMatches == IdsOf(rows) * Elements(claim.priorIds)
  {
    hide HistoryVerified, Reasons, Ambiguities, Snapshots, Screen, Degraded, SomeObserved, IsStale;
    var told := seq(|rows|, i requires 0 <= i < |rows| => Tell(rows[i].event));
    TellsNames(rows, told);
  }

  lemma TellsNames(rows: seq<Row>, told: seq<Told>)
    requires |told| == |rows| && forall i | 0 <= i < |rows| :: told[i] == Tell(rows[i].event)
    ensures (set t | t in told :: t.stream.entity) == EntitiesOf(rows)
    ensures (set t | t in told :: t.id) == IdsOf(rows)
  {
    assert forall i | 0 <= i < |rows| ::
        told[i] in told && told[i].stream == rows[i].event.stream && told[i].id == rows[i].event.id;
  }

  /** The report names every entity of an event or a snapshot handed in, and every prior id that came back. */
  lemma ReportedNames(x: Setting, now: int, claim: Claim, raws: seq<RawSnapshot>, incoming: seq<Event>, name: string)
    requires SealsFaithful(x) && Replay(x, now, claim, raws, incoming).Accepted?
    ensures var r := Replay(x, now, claim, raws, incoming).value;
      && (name in r.entities
          <==> || (exists e :: e in incoming && e.stream.entity == name)
               || (exists i :: 0 <= i < |raws| && raws[i].stream.entity == name))
      && (name in r.opaqueMatches <==> name in claim.priorIds && exists e :: e in incoming && e.id == name)
  {
    hide SealsFaithful, AdmitEvents, AdmitSnapshots, InOrder, Fold, ReportOn, EntitiesOf, IdsOf, SameIdentities;
    AcceptedParts(x, now, claim, raws, incoming);
    var base := AdmitSnapshots(x, now, raws).value;
    var intake := AdmitEvents(x, now, base, incoming).value;
    var rows := InOrder(intake.kept);
    RowsIdentities(x, now, base, incoming);
    NamesOfRows(incoming, rows, name);
    NamesOnReport(x, now, claim, base, intake, rows, Fold(x, Begin(base), rows));
    SnapshotEntities(x, now, raws, name);
  }

  lemma SnapshotEntities(x: Setting, now: int, raws: seq<RawSnapshot>, name: string)
    requires AdmitSnapshots(x, now, raws).Accepted?
    ensures name in (set k | k in AdmitSnapshots(x, now, raws).value.snapshots :: k.entity)
            <==> exists i :: 0 <= i < |raws| && raws[i].stream.entity == name
  {
    var base := AdmitSnapshots(x, now, raws).value;
    hide AdmitSnapshots, TimeAdmitted;
    forall k ensures k in base.snapshots <==> exists i :: 0 <= i < |raws| && raws[i].stream == k {
      BaseExactly(x, now, raws, k);
    }
    if i :| 0 <= i < |raws| && raws[i].stream.entity == name { assert raws[i].stream in base.snapshots; }
  }

  // ------------------------------------------------------------------ under CLEAR

  /** `f` is later than `e` by the instants their times name. */
  predicate Later(x: Setting, e: Event, f: Event) {
    x.parse(e.time).Some? && x.parse(f.time).Some? && x.parse(e.time).value < x.parse(f.time).value
  }

  /**
   Under CLEAR every designation that an event added is removed or delisted by a strictly later event of its
   stream: the one that some copy of the event names.
   */
  lemma ClearRemovesLater(x: Setting, now: int, claim: Claim, raws: seq<RawSnapshot>, incoming: seq<Event>, e: Event)
    returns (g: Event, f: Event)
    requires SealsFaithful(x)
    requires Replay(x, now, claim, raws, incoming).Accepted?
    requires Replay(x, now, claim, raws, incoming).value.screening == Clear
    requires e in incoming && e.kind.DesignationAdded?
    ensures g in incoming && CopyOf(e, g) && f in incoming
    ensures RemovesFrom(x, f, e.stream, Named(x, g)) && Later(x, e, f)
  {
    hide Replay, SealsFaithful, CopyOf, DesignationOf, RowOf, Named;
    ClearMeansRemoved(x, now, claim, raws, incoming, e);
    var t := InstantOf(x, now, e);
    g :| g in incoming && CopyOf(e, g) && RemovedAfter(x, now, incoming, e.stream, DesignationOf(x, g), t);
    f :| f in incoming && RemovesAfter(x, now, f, e.stream, DesignationOf(x, g), t);
    NamedExactly(x, g);
    NamedExactly(x, f);
    EventsHaveInstants(x, now, claim, raws, incoming, e);
    EventsHaveInstants(x, now, claim, raws, incoming, f);
  }

  lemma EventsHaveInstants(x: Setting, now: int, claim: Claim, raws: seq<RawSnapshot>, incoming: seq<Event>, e: Event)
    requires SealsFaithful(x) && Replay(x, now, claim, raws, incoming).Accepted? && e in incoming
    ensures x.parse(e.time).Some? && InstantOf(x, now, e) == x.parse(e.time).value
  {
    AcceptedParts(x, now, claim, raws, incoming);
    var base := AdmitSnapshots(x, now, raws).value;
    hide AdmitSnapshots, AdmitEvents, RowOf, SealsFaithful;
    EventsExactly(x, now, base, incoming);
    RowExactly(x, now, e, RowOf(x, now, e).value);
  }
}
