/** What a CLEAR screening means: exactly which histories get it, and that nothing in them is open. */
module LifecycleScreening {
  import opened Prelude
  import opened Chronology
  import opened Lifecycle
  import opened LifecycleAdmission
  import opened LifecycleOrder

  function SlotOf(row: Row): Slot { Slot(row.instant, IdentityOf(row.event)) }

  predicate WellKept(kept: map<Identity, Row>) {
    forall i | i in kept :: IdentityOf(kept[i].event) == i
  }

  lemma KeptWell(x: Setting, now: int, events: seq<Event>, kept: map<Identity, Row>)
    requires KeptRight(x, now, events, kept)
    ensures WellKept(kept)
  {
  }

  /** The replayed rows are the kept ones, ordered by their slots. */
  lemma InOrderSorted(kept: map<Identity, Row>)
    requires WellKept(kept)
    ensures var rows := InOrder(kept);
      && Chronological(rows)
      && (forall i | 0 <= i < |rows| :: SlotOf(rows[i]) == Ordered(Slots(kept))[i])
      && (forall i | i in kept :: kept[i] in rows)
      && (forall r | r in rows :: IdentityOf(r.event) in kept && kept[IdentityOf(r.event)] == r)
  {
    var slots := Ordered(Slots(kept));
    var rows := InOrder(kept);
    forall i | 0 <= i < |rows| ensures SlotOf(rows[i]) == slots[i] && slots[i].identity in kept {
      assert slots[i] in slots && slots[i] in Slots(kept);
    }
    forall i | i in kept ensures kept[i] in rows {
      var slot := Slot(kept[i].instant, i);
      assert slot in Slots(kept) && slot in slots;
      var p :| 0 <= p < |slots| && slots[p] == slot;
      assert rows[p] == kept[i];
    }
    forall i, j | 0 <= i < j < |rows| ensures rows[i].instant <= rows[j].instant {
      assert Before(slots[i], slots[j]);
      assert SlotOf(rows[i]) == slots[i] && SlotOf(rows[j]) == slots[j];
    }
  }

  // ------------------------------------------------------ the reasons, recounted

  function StartOf(base: Base): map<Stream, set<string>> { Begin(base).active }

  /** A removal finds its designation live. */
  predicate Grounded(x: Setting, start: map<Stream, set<string>>, rows: seq<Row>, i: nat)
    requires i < |rows|
  {
    IsRemoval(rows[i].event.kind) ==>
      Live(x, start, rows[..i], rows[i].event.stream, DesignationOf(x, rows[i].event))
  }

  predicate AllGrounded(x: Setting, start: map<Stream, set<string>>, rows: seq<Row>) {
    forall i: nat | i < |rows| :: Grounded(x, start, rows, i)
  }

  lemma GroundedGrows(x: Setting, start: map<Stream, set<string>>, rows: seq<Row>)
    requires rows != []
    ensures AllGrounded(x, start, rows)
            <==> AllGrounded(x, start, rows[..|rows| - 1]) && Grounded(x, start, rows, |rows| - 1)
  {
    var n := |rows| - 1;
    var front := rows[..n];
    forall i: nat | i < n ensures Grounded(x, start, rows, i) <==> Grounded(x, start, front, i) {
      assert front[..i] == rows[..i];
    }
    if !AllGrounded(x, start, front) {
      var i: nat :| i < n && !Grounded(x, start, front, i);
      assert !Grounded(x, start, rows, i);
    }
  }

  lemma AdvanceUnmatched(x: Setting, tally: Tally, row: Row)
    ensures Advance(x, tally, row).unmatched == []
            <==> && tally.unmatched == []
                 && (IsRemoval(row.event.kind) ==>
                       DesignationOf(x, row.event) in Lookup(tally.active, row.event.stream, {}))
  {
  }

  lemma {:induction false} UnmatchedExact(x: Setting, start: Tally, rows: seq<Row>)
    requires start.unmatched == []
    ensures Fold(x, start, rows).unmatched == [] <==> AllGrounded(x, start.active, rows)
  {
    hide Advance, Live, AllGrounded, DesignationOf;
    if rows == [] {
      NothingUngrounded(x, start.active);
    } else {
      var n := |rows| - 1;
      UnmatchedExact(x, start, rows[..n]);
      AdvanceUnmatched(x, Fold(x, start, rows[..n]), rows[n]);
      ActiveIsLive(x, start, rows[..n], rows[n].event.stream, DesignationOf(x, rows[n].event));
      GroundedGrows(x, start.active, rows);
    }
  }

  lemma NothingUngrounded(x: Setting, start: map<Stream, set<string>>)
    ensures AllGrounded(x, start, [])
  {
  }

  /** The events of one stream in replay order. */
  function EventsOf(rows: seq<Row>, k: Stream): seq<Event> {
    if rows == [] then []
    else
      var n := |rows| - 1;
      EventsOf(rows[..n], k) + (if rows[n].event.stream == k then [rows[n].event] else [])
  }

  lemma AdvanceHistory(x: Setting, tally: Tally, row: Row, k: Stream)
    ensures HistoryOf(Advance(x, tally, row), k)
            == HistoryOf(tally, k) + (if row.event.stream == k then [row.event] else [])
  {
  }

  lemma {:induction false} HistoryExact(x: Setting, start: Tally, rows: seq<Row>, k: Stream)
    requires start.history == map[]
    ensures HistoryOf(Fold(x, start, rows), k) == EventsOf(rows, k)
  {
    hide Advance;
    if rows != [] {
      var n := |rows| - 1;
      HistoryExact(x, start, rows[..n], k);
      AdvanceHistory(x, Fold(x, start, rows[..n]), rows[n], k);
    }
  }

  predicate Involved(base: Base, rows: seq<Row>, k: Stream) {
    k in base.snapshots || Mentioned(rows, k)
  }

  /** A verifier is there, something is to be verified, and it accepts every stream involved. */
  ghost predicate Approved(claim: Claim, base: Base, rows: seq<Row>) {
    && claim.verifier.Some?
    && (exists k :: Involved(base, rows, k))
    && forall k | Involved(base, rows, k) :: claim.verifier.value(k, EventsOf(rows, k), SnapshotOf(base, k))
  }

  lemma VerifiedExact(x: Setting, claim: Claim, base: Base, rows: seq<Row>)
    requires base.snapshots.Keys == base.instants.Keys
    ensures HistoryVerified(claim, base, Fold(x, Begin(base), rows)) <==> Approved(claim, base, rows)
  {
    hide Fold, EventsOf, Mentioned;
    var start := Begin(base);
    var tally := Fold(x, start, rows);
    forall k ensures k in tally.active <==> Involved(base, rows, k) { StreamsExact(x, start, rows, k); }
    forall k ensures HistoryOf(tally, k) == EventsOf(rows, k) { HistoryExact(x, start, rows, k); }
    if tally.active.Keys != {} {
      var k :| k in tally.active;
      assert Involved(base, rows, k);
    }
  }

  /** No designation of any stream is live at the end. */
  ghost predicate NothingLive(x: Setting, start: map<Stream, set<string>>, rows: seq<Row>) {
    forall k, d :: !Live(x, start, rows, k, d)
  }

  ghost predicate NoTies(x: Setting, rows: seq<Row>) {
    forall op :: !(Performed(x, rows, op, Add) && Performed(x, rows, op, Remove))
  }

  predicate Undoubted(claim: Claim) {
    claim.priorIds == [] && claim.chainComplete && claim.conflicts == 0
  }

  predicate FreshlyObserved(now: int, rows: seq<Row>) {
    && rows != []
    && forall i | 0 <= i < |rows| :: rows[i].event.state == Observed && now - rows[i].instant <= STALE_AFTER
  }

  lemma NothingActiveExact(x: Setting, start: Tally, rows: seq<Row>)
    ensures NoneActive(Fold(x, start, rows).active) <==> NothingLive(x, start.active, rows)
  {
    hide Fold, Live;
    var active := Fold(x, start, rows).active;
    if NoneActive(active) {
      forall k, d ensures !Live(x, start.active, rows, k, d) { ActiveIsLive(x, start, rows, k, d); }
    } else {
      var k :| k in active && active[k] != {};
      var d :| d in active[k];
      ActiveIsLive(x, start, rows, k, d);
      assert Live(x, start.active, rows, k, d);
    }
  }

  lemma NoAmbiguityExact(x: Setting, start: Tally, rows: seq<Row>)
    requires start.operations == map[]
    ensures Ambiguities(Fold(x, start, rows)) == {} <==> NoTies(x, rows)
  {
    hide Fold, Performed;
    forall op ensures op in Ambiguities(Fold(x, start, rows))
                      <==> Performed(x, rows, op, Add) && Performed(x, rows, op, Remove) {
      AmbiguitiesExact(x, start, rows, op);
    }
  }

  lemma FreshExact(now: int, rows: seq<Row>)
    ensures FreshlyObserved(now, rows) <==> SomeObserved(rows) && !IsStale(now, rows)
  {
    if rows != [] && !Degraded(rows) { assert rows[0].event.state == Observed; }
  }

  /**
   A screening is CLEAR exactly when the claims are undoubted, the verifier accepts every stream,
   everything was observed within the last year, every removal had something to remove, no instant
   both adds and removes one designation, and nothing is live at the end.
   */
  lemma ClearExactly(x: Setting, now: int, claim: Claim, base: Base, rows: seq<Row>)
    requires base.snapshots.Keys == base.instants.Keys
    ensures var tally := Fold(x, Begin(base), rows);
      var reasons := Reasons(claim, HistoryVerified(claim, base, tally), rows, tally);
      Screen(now, rows, reasons, tally.active) == Clear
      <==> && Undoubted(claim) && Approved(claim, base, rows) && FreshlyObserved(now, rows)
           && AllGrounded(x, StartOf(base), rows) && NoTies(x, rows) && NothingLive(x, StartOf(base), rows)
  {
    hide Fold, Live, Approved, AllGrounded, NoTies, NothingLive, HistoryVerified, Ambiguities, FreshlyObserved;
    var start := Begin(base);
    var tally := Fold(x, start, rows);
    VerifiedExact(x, claim, base, rows);
    UnmatchedExact(x, start, rows);
    NothingActiveExact(x, start, rows);
    NoAmbiguityExact(x, start, rows);
    FreshExact(now, rows);
    var reasons := Reasons(claim, HistoryVerified(claim, base, tally), rows, tally);
    ReasonsEmpty(claim, HistoryVerified(claim, base, tally), rows, tally);
  }

  lemma ReasonsEmpty(claim: Claim, verified: bool, rows: seq<Row>, tally: Tally)
    ensures Reasons(claim, verified, rows, tally) == {}
            <==> Undoubted(claim) && verified && !Degraded(rows) && tally.unmatched == [] && Ambiguities(tally) == {}
  {
  }

  // ----------------------------------------------------- nothing is left open

  function InstantOf(x: Setting, now: int, e: Event): int {
    if RowOf(x, now, e).Accepted? then RowOf(x, now, e).value.instant else 0
  }

  /** `f` removes designation `d` of stream `k` later than `t`. */
  predicate RemovesAfter(x: Setting, now: int, f: Event, k: Stream, d: string, t: int) {
    f.stream == k && IsRemoval(f.kind) && DesignationOf(x, f) == d && t < InstantOf(x, now, f)
  }

  ghost predicate RemovedAfter(x: Setting, now: int, incoming: seq<Event>, k: Stream, d: string, t: int) {
    exists f | f in incoming :: RemovesAfter(x, now, f, k, d, t)
  }

  /** In a history without live designations and ties, whatever was added is removed later. */
  lemma AddedIsRemoved(x: Setting, start: map<Stream, set<string>>, rows: seq<Row>, i: nat) returns (j: nat)
    requires i < |rows| && rows[i].event.kind.DesignationAdded?
    requires Chronological(rows) && NoTies(x, rows) && NothingLive(x, start, rows)
    ensures j < |rows| && rows[i].instant < rows[j].instant
    ensures IsRemoval(rows[j].event.kind) && rows[j].event.stream == rows[i].event.stream
    ensures DesignationOf(x, rows[j].event) == DesignationOf(x, rows[i].event)
  {
    hide DesignationOf;
    var k, d := rows[i].event.stream, DesignationOf(x, rows[i].event);
    assert !Live(x, start, rows, k, d);
    assert Touches(x, rows[i], k, d);
    j := LastTouch(x, rows, k, d);
    var op := Operation(k, d, rows[i].instant);
    assert Performs(x, rows[i], op, Add) && Performed(x, rows, op, Add);
    assert !Performed(x, rows, op, Remove) && !Performs(x, rows[j], op, Remove);
  }

  /** In a history without live designations, whatever was carried in is removed. */
  lemma CarriedIsRemoved(x: Setting, start: map<Stream, set<string>>, rows: seq<Row>, k: Stream, d: string)
    returns (j: nat)
    requires d in Lookup(start, k, {}) && NothingLive(x, start, rows)
    ensures j < |rows| && IsRemoval(rows[j].event.kind) && rows[j].event.stream == k
    ensures DesignationOf(x, rows[j].event) == d
  {
    hide DesignationOf, LastTouch;
    assert !Live(x, start, rows, k, d);
    j := LastTouch(x, rows, k, d);
  }

  /** What the rows of an accepted replay have to do with the events that came in. */
  lemma RowsAreEvents(x: Setting, now: int, base: Base, incoming: seq<Event>)
    requires SealsFaithful(x) && AdmitEvents(x, now, base, incoming).Accepted?
    ensures var rows := InOrder(AdmitEvents(x, now, base, incoming).value.kept);
      && Chronological(rows)
      && (forall r | r in rows ::
            r.event in incoming && RowOf(x, now, r.event) == Accepted(r) && Admissible(x, now, base, r.event))
  {
    hide SealsFaithful, RowOf, Below, AdmitEvents, InOrder, Chronological, Admissible, AllCompatible;
    AdmissionSound(x, now, base, incoming);
    var kept := AdmitEvents(x, now, base, incoming).value.kept;
    KeptWell(x, now, incoming, kept);
    InOrderSorted(kept);
    var rows := InOrder(kept);
    forall r | r in rows
      ensures r.event in incoming && RowOf(x, now, r.event) == Accepted(r) && Admissible(x, now, base, r.event)
    {
      assert Represents(x, now, incoming, IdentityOf(r.event), r);
    }
  }

  /** Every event that came in is replayed, in its own or in an equivalent spelling of its instant. */
  lemma EventReplayed(x: Setting, now: int, base: Base, incoming: seq<Event>, e: Event) returns (i: nat)
    requires SealsFaithful(x) && AdmitEvents(x, now, base, incoming).Accepted? && e in incoming
    ensures var rows := InOrder(AdmitEvents(x, now, base, incoming).value.kept);
      i < |rows| && CopyOf(e, rows[i].event) && InstantOf(x, now, e) == rows[i].instant
  {
    hide SealsFaithful, RowOf, Below, AdmitEvents, InOrder, Chronological, Admissible, AllCompatible;
    AdmissionSound(x, now, base, incoming);
    var kept := AdmitEvents(x, now, base, incoming).value.kept;
    KeptWell(x, now, incoming, kept);
    InOrderSorted(kept);
    CopyKept(x, now, base, incoming, kept, e);
    assert kept[IdentityOf(e)] in InOrder(kept);
    i :| 0 <= i < |InOrder(kept)| && InOrder(kept)[i] == kept[IdentityOf(e)];
  }

  lemma CopyKept(x: Setting, now: int, base: Base, incoming: seq<Event>, kept: map<Identity, Row>, e: Event)
    requires SealsFaithful(x) && KeptRight(x, now, incoming, kept) && e in incoming
    requires AllAdmissible(x, now, base, incoming) && AllCompatible(x, now, incoming)
    ensures IdentityOf(e) in kept
    ensures var r := kept[IdentityOf(e)]; CopyOf(e, r.event) && InstantOf(x, now, e) == r.instant
  {
    hide SealsFaithful, RowOf, Below;
    var r := kept[IdentityOf(e)];
    assert Represents(x, now, incoming, IdentityOf(e), r);
    assert Admissible(x, now, base, e) && Admissible(x, now, base, r.event) && Compatible(x, now, e, r.event);
    RowsAlike(x, now, e, r.event);
  }

  lemma ClearRows(x: Setting, now: int, claim: Claim, raws: seq<RawSnapshot>, incoming: seq<Event>)
    requires Replay(x, now, claim, raws, incoming).Accepted?
    requires Replay(x, now, claim, raws, incoming).value.screening == Clear
    ensures var base := AdmitSnapshots(x, now, raws).value;
      var rows := InOrder(AdmitEvents(x, now, base, incoming).value.kept);
      NoTies(x, rows) && NothingLive(x, StartOf(base), rows)
  {
    hide AdmitEvents, AdmitSnapshots, InOrder, Fold, NothingLive, NoTies, Approved, AllGrounded, Screen, Reasons,
         HistoryVerified, FreshlyObserved, StartOf, Undoubted;
    var base := AdmitSnapshots(x, now, raws).value;
    BaseAligned(x, now, raws);
    ClearExactly(x, now, claim, base, InOrder(AdmitEvents(x, now, base, incoming).value.kept));
  }

  /** Every copy of the event names the designation it names. */
  predicate NamedAlike(x: Setting, incoming: seq<Event>, e: Event) {
    forall g | g in incoming && CopyOf(e, g) :: DesignationOf(x, g) == DesignationOf(x, e)
  }

  /** Some copy of the event names a designation that is removed later than the event. */
  ghost predicate CopyRemoved(x: Setting, now: int, incoming: seq<Event>, e: Event) {
    exists g | g in incoming ::
      CopyOf(e, g) && RemovedAfter(x, now, incoming, e.stream, DesignationOf(x, g), InstantOf(x, now, e))
  }

  /**
   Under a CLEAR screening every event that added a designation is removed by a later one: the
   designation some copy of it names, and so its own whenever its copies agree.
   */
  lemma ClearMeansRemoved(x: Setting, now: int, claim: Claim, raws: seq<RawSnapshot>, incoming: seq<Event>, e: Event)
    requires SealsFaithful(x)
    requires Replay(x, now, claim, raws, incoming).Accepted?
    requires Replay(x, now, claim, raws, incoming).value.screening == Clear
    requires e in incoming && e.kind.DesignationAdded?
    ensures CopyRemoved(x, now, incoming, e)
    ensures NamedAlike(x, incoming, e) ==>
      RemovedAfter(x, now, incoming, e.stream, DesignationOf(x, e), InstantOf(x, now, e))
  {
    hide *;
    AcceptedParts(x, now, claim, raws, incoming);
    var base := AdmitSnapshots(x, now, raws).value;
    var rows := InOrder(AdmitEvents(x, now, base, incoming).value.kept);
    ClearRows(x, now, claim, raws, incoming);
    RowsAreEvents(x, now, base, incoming);
    var i := EventReplayed(x, now, base, incoming, e);
    CopyKind(e, rows[i].event);
    var j := AddedIsRemoved(x, StartOf(base), rows, i);
    assert rows[i] in rows && rows[j] in rows;
    RemovedBy(x, now, incoming, rows[j], e.stream, DesignationOf(x, rows[i].event), InstantOf(x, now, e));
    RemovedThrough(x, now, incoming, e, rows[i].event);
  }

  lemma CopyKind(a: Event, b: Event)
    requires CopyOf(a, b)
    ensures a.kind == b.kind && a.stream == b.stream && a.id == b.id
  {
  }

  lemma RemovedThrough(x: Setting, now: int, incoming: seq<Event>, e: Event, g: Event)
    requires g in incoming && CopyOf(e, g)
    requires RemovedAfter(x, now, incoming, e.stream, DesignationOf(x, g), InstantOf(x, now, e))
    ensures CopyRemoved(x, now, incoming, e)
    ensures NamedAlike(x, incoming, e) ==>
      RemovedAfter(x, now, incoming, e.stream, DesignationOf(x, e), InstantOf(x, now, e))
  {
  }

  lemma AcceptedParts(x: Setting, now: int, claim: Claim, raws: seq<RawSnapshot>, incoming: seq<Event>)
    requires Replay(x, now, claim, raws, incoming).Accepted?
    ensures AdmitSnapshots(x, now, raws).Accepted?
    ensures AdmitEvents(x, now, AdmitSnapshots(x, now, raws).value, incoming).Accepted?
  {
  }

  lemma RemovedBy(x: Setting, now: int, incoming: seq<Event>, row: Row, k: Stream, d: string, t: int)
    requires row.event in incoming && RowOf(x, now, row.event) == Accepted(row)
    requires row.event.stream == k && IsRemoval(row.event.kind) && DesignationOf(x, row.event) == d && t < row.instant
    ensures RemovedAfter(x, now, incoming, k, d, t)
  {
  }

  /** Under a CLEAR screening every designation carried in by a snapshot is removed after it. */
  lemma ClearMeansCarriedRemoved(x: Setting, now: int, claim: Claim, raws: seq<RawSnapshot>, incoming: seq<Event>,
                                 raw: RawSnapshot, d: string)
    requires SealsFaithful(x)
    requires Replay(x, now, claim, raws, incoming).Accepted?
    requires Replay(x, now, claim, raws, incoming).value.screening == Clear
    requires raw in raws && d in raw.active
    ensures x.parse(raw.asOf).Some?
    ensures RemovedAfter(x, now, incoming, raw.stream, d, x.parse(raw.asOf).value)
  {
    hide SealsFaithful, RowOf, AdmitEvents, AdmitSnapshots, InOrder, DesignationOf, NothingLive, NoTies, Replay,
         RemovedAfter;
    AcceptedParts(x, now, claim, raws, incoming);
    var base := AdmitSnapshots(x, now, raws).value;
    var rows := InOrder(AdmitEvents(x, now, base, incoming).value.kept);
    BaseAligned(x, now, raws);
    ClearRows(x, now, claim, raws, incoming);
    RowsAreEvents(x, now, base, incoming);
    var j := CarriedIsRemoved(x, StartOf(base), rows, raw.stream, d);
    assert rows[j] in rows;
    RemovedBy(x, now, incoming, rows[j], raw.stream, d, x.parse(raw.asOf).value);
  }

  lemma SnapshotAdmitted(x: Setting, now: int, raw: RawSnapshot)
    requires AdmitSnapshot(x, now, raw).Accepted?
    ensures AdmitSnapshot(x, now, raw).value.0.active == Elements(raw.active)
    ensures x.parse(raw.asOf) == Some(AdmitSnapshot(x, now, raw).value.1)
  {
  }

  /** The admitted snapshots, each under its stream, with the instant it was taken. */
  lemma {:induction false} BaseAligned(x: Setting, now: int, raws: seq<RawSnapshot>)
    requires AdmitSnapshots(x, now, raws).Accepted?
    ensures var base := AdmitSnapshots(x, now, raws).value;
      && base.snapshots.Keys == base.instants.Keys
      && (forall raw | raw in raws ::
            && raw.stream in base.snapshots
            && base.snapshots[raw.stream].active == Elements(raw.active)
            && x.parse(raw.asOf) == Some(base.instants[raw.stream]))
  {
    hide Ahead, AdmitSnapshot, Elements;
    if raws != [] {
      var n := |raws| - 1;
      BaseAligned(x, now, raws[..n]);
      SnapshotAdmitted(x, now, raws[n]);
      assert raws == raws[..n] + [raws[n]];
    }
  }

  /** A CLEAR report is complete and measured, rests on verified history and lists nothing active. */
  lemma ClearIsMeasured(x: Setting, now: int, claim: Claim, raws: seq<RawSnapshot>, incoming: seq<Event>)
    requires Replay(x, now, claim, raws, incoming).Accepted?
    requires Replay(x, now, claim, raws, incoming).value.screening == Clear
    ensures var r := Replay(x, now, claim, raws, incoming).value;
      && r.reasons == {} && r.unmatched == [] && r.ambiguities == {} && NoneActive(r.active) && r.recovered != []
      && r.truth == Measured && r.identity == Complete && r.historyVerified && !r.degraded
      && r.history == if raws != [] then SnapshotContinuation else FullReplay
  {
    hide AdmitEvents, AdmitSnapshots, InOrder, Fold, Ambiguities, HistoryVerified, Reasons;
    var base := AdmitSnapshots(x, now, raws).value;
    var rows := InOrder(AdmitEvents(x, now, base, incoming).value.kept);
    var tally := Fold(x, Begin(base), rows);
    ReasonsEmpty(claim, HistoryVerified(claim, base, tally), rows, tally);
    BaseAligned(x, now, raws);
    NoBase(x, now);
    assert raws != [] ==> raws[0].stream in base.snapshots;
  }

  lemma NoBase(x: Setting, now: int)
    ensures AdmitSnapshots(x, now, []).value.snapshots == map[]
  {
  }
}
