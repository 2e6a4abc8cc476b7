/**
 Continuing from snapshots: replaying a history in two parts, the second from the snapshots the first
 one emitted, refines replaying it whole.
 */
module LifecycleContinuation {
  import opened Prelude
  import opened Chronology
  import opened Lifecycle
  import opened Payloads
  import opened LifecycleAdmission
  import opened LifecycleOrder
  import opened LifecycleScreening
  import opened LifecycleStreams

  // -------------------------------------------------- what is assumed of the setting

  /** A rendered instant is read back as that instant. */
  ghost predicate TimesRoundTrip(x: Setting) {
    forall t :: x.parse(x.iso(t)) == Some(t)
  }

  /** Digests are written in lower case. */
  ghost predicate DigestsLower(x: Setting) {
    forall k, text, active :: x.lower(x.digest(k, text, active)) == x.digest(k, text, active)
  }

  /** A value that counts as present is shown as some text. */
  ghost predicate ShowsSomething(x: Setting) {
    forall v | Truthy(v) :: Shown(x, v) != ""
  }

  ghost predicate Lawful(x: Setting) {
    TimesRoundTrip(x) && DigestsLower(x) && ShowsSomething(x) && SealsFaithful(x)
  }

  /** The ids of an event are present, as the request demands. */
  predicate WellNamed(e: Event) {
    e.id != "" && e.stream.entity != "" && e.stream.source != ""
  }

  // ------------------------------------------------------------- a later clock

  lemma RowLater(x: Setting, now: int, later: int, e: Event)
    requires now <= later && RowOf(x, now, e).Accepted?
    ensures RowOf(x, later, e) == RowOf(x, now, e)
  {
  }

  lemma {:induction false} SnapshotsLater(x: Setting, now: int, later: int, raws: seq<RawSnapshot>)
    requires now <= later && AdmitSnapshots(x, now, raws).Accepted?
    ensures AdmitSnapshots(x, later, raws).Accepted?
    ensures AdmitSnapshots(x, later, raws).value.snapshots == AdmitSnapshots(x, now, raws).value.snapshots
    ensures AdmitSnapshots(x, later, raws).value.instants == AdmitSnapshots(x, now, raws).value.instants
  {
    hide Ahead, Unique, Elements;
    if raws != [] {
      SnapshotsLater(x, now, later, raws[..|raws| - 1]);
    }
  }

  // --------------------------------------------------------- the emitted snapshots

  predicate AsOfRight(start: map<Stream, int>, rows: seq<Row>, asOf: map<Stream, int>, k: Stream) {
    && (k in start ==> k in asOf && start[k] <= asOf[k])
    && (forall i | 0 <= i < |rows| && rows[i].event.stream == k :: k in asOf && rows[i].instant <= asOf[k])
    && (k in asOf ==>
          || (k in start && start[k] == asOf[k])
          || exists i :: 0 <= i < |rows| && rows[i].event.stream == k && rows[i].instant == asOf[k])
  }

  lemma AsOfAdvanced(x: Setting, tally: Tally, row: Row)
    ensures Advance(x, tally, row).asOf
            == tally.asOf[row.event.stream := Larger(Lookup(tally.asOf, row.event.stream, row.instant), row.instant)]
  {
  }

  lemma AsOfStep(start: map<Stream, int>, front: seq<Row>, row: Row, asOf: map<Stream, int>, k: Stream)
    requires AsOfRight(start, front, asOf, k)
    ensures AsOfRight(start, front + [row],
                      asOf[row.event.stream := Larger(Lookup(asOf, row.event.stream, row.instant), row.instant)], k)
  {
    var rows := front + [row];
    var next := asOf[row.event.stream := Larger(Lookup(asOf, row.event.stream, row.instant), row.instant)];
    if k in asOf && next[k] == asOf[k] && !(k in start && start[k] == asOf[k]) {
      var i :| 0 <= i < |front| && front[i].event.stream == k && front[i].instant == asOf[k];
      assert rows[i] == front[i];
    } else if k in next && next[k] == row.instant && row.event.stream == k {
      assert rows[|front|] == row;
    }
  }

  lemma {:induction false} AsOfExact(x: Setting, start: Tally, rows: seq<Row>, k: Stream)
    ensures AsOfRight(start.asOf, rows, Fold(x, start, rows).asOf, k)
  {
    hide Advance;
    if rows != [] {
      hide AsOfRight, Lookup;
      var n := |rows| - 1;
      AsOfExact(x, start, rows[..n], k);
      AsOfAdvanced(x, Fold(x, start, rows[..n]), rows[n]);
      AsOfStep(start.asOf, rows[..n], rows[n], Fold(x, start, rows[..n]).asOf, k);
      assert rows == rows[..n] + [rows[n]];
    }
  }

  /** The emitted snapshots, one list entry for each stream, ready to be handed in again. */
  predicate Carries(carried: seq<RawSnapshot>, snapshots: map<Stream, Snapshot>) {
    && (forall i | 0 <= i < |carried| :: CarriesOne(carried[i], snapshots))
    && (forall i, j | 0 <= i < j < |carried| :: carried[i].stream != carried[j].stream)
    && (forall k | k in snapshots :: exists i :: 0 <= i < |carried| && carried[i].stream == k)
  }

  predicate CarriesOne(raw: RawSnapshot, snapshots: map<Stream, Snapshot>) {
    && raw.stream in snapshots
    && var s := snapshots[raw.stream];
      raw.asOf == s.asOf && raw.digest == s.digest && Unique(raw.active) && Elements(raw.active) == s.active
  }

  /** A snapshot taken of a named stream at an admissible instant passes its own admission. */
  lemma SnapshotRoundTrip(x: Setting, now: int, raw: RawSnapshot, t: int, active: set<string>)
    requires TimesRoundTrip(x) && DigestsLower(x)
    requires raw.stream.entity != "" && raw.stream.source != "" && "" !in active
    requires t - now <= ALLOWED_FUTURE_SKEW
    requires CarriesOne(raw, map[raw.stream := TakeSnapshot(x, raw.stream, t, active)])
    ensures AdmitSnapshot(x, now, raw) == Accepted((TakeSnapshot(x, raw.stream, t, active), t))
  {
  }

  /** What a tally must be like for its snapshots to be handed in again. */
  predicate Portable(tally: Tally, now: int) {
    && tally.active.Keys == tally.asOf.Keys
    && forall k | k in tally.active ::
         k.entity != "" && k.source != "" && "" !in tally.active[k] && tally.asOf[k] - now <= ALLOWED_FUTURE_SKEW
  }

  predicate PartOf(base: Base, x: Setting, tally: Tally, streams: set<Stream>)
    requires tally.active.Keys == tally.asOf.Keys && streams <= tally.active.Keys
  {
    && base.snapshots.Keys == streams && base.instants.Keys == streams
    && forall k | k in streams ::
         base.snapshots[k] == TakeSnapshot(x, k, tally.asOf[k], tally.active[k]) && base.instants[k] == tally.asOf[k]
  }

  function StreamsIn(carried: seq<RawSnapshot>): set<Stream> {
    set raw | raw in carried :: raw.stream
  }

  lemma CarriedOne(x: Setting, now: int, raw: RawSnapshot, tally: Tally)
    requires TimesRoundTrip(x) && DigestsLower(x) && Portable(tally, now)
    requires CarriesOne(raw, Snapshots(x, tally))
    ensures raw.stream in tally.active && raw.stream in tally.asOf
    ensures AdmitSnapshot(x, now, raw)
            == Accepted((TakeSnapshot(x, raw.stream, tally.asOf[raw.stream], tally.active[raw.stream]),
                         tally.asOf[raw.stream]))
  {
  }

  lemma StreamsGrow(carried: seq<RawSnapshot>, n: nat)
    requires 0 < n <= |carried|
    ensures carried[..n][..n - 1] == carried[..n - 1]
    ensures StreamsIn(carried[..n]) == StreamsIn(carried[..n - 1]) + {carried[n - 1].stream}
  {
  }

  lemma CarriedStep(x: Setting, now: int, base: Base, tally: Tally, streams: set<Stream>, raw: RawSnapshot)
    requires TimesRoundTrip(x) && DigestsLower(x) && Portable(tally, now)
    requires streams <= tally.active.Keys && PartOf(base, x, tally, streams)
    requires CarriesOne(raw, Snapshots(x, tally)) && raw.stream !in streams
    ensures raw.stream in tally.active
    ensures AddSnapshot(x, now, base, raw).Accepted?
    ensures PartOf(AddSnapshot(x, now, base, raw).value, x, tally, streams + {raw.stream})
  {
    hide TimesRoundTrip, DigestsLower, AdmitSnapshot, TakeSnapshot, CarriesOne, Snapshots, Ahead, Larger;
    CarriedOne(x, now, raw, tally);
  }

  lemma {:induction false} CarriedInPart(x: Setting, now: int, carried: seq<RawSnapshot>, tally: Tally, n: nat)
    requires TimesRoundTrip(x) && DigestsLower(x) && Portable(tally, now)
    requires n <= |carried| && Carries(carried, Snapshots(x, tally))
    ensures StreamsIn(carried[..n]) <= tally.active.Keys
    ensures AdmitSnapshots(x, now, carried[..n]).Accepted?
    ensures PartOf(AdmitSnapshots(x, now, carried[..n]).value, x, tally, StreamsIn(carried[..n]))
  {
    hide TimesRoundTrip, DigestsLower, AddSnapshot, CarriesOne, Snapshots;
    if n > 0 {
      CarriedInPart(x, now, carried, tally, n - 1);
      hide StreamsIn, PartOf;
      StreamsGrow(carried, n);
      CarriedStep(x, now, AdmitSnapshots(x, now, carried[..n - 1]).value, tally, StreamsIn(carried[..n - 1]),
                  carried[n - 1]);
    }
  }

  lemma AllCarried(carried: seq<RawSnapshot>, snapshots: map<Stream, Snapshot>)
    requires Carries(carried, snapshots)
    ensures StreamsIn(carried) == snapshots.Keys
  {
  }

  lemma PartBegins(base: Base, x: Setting, tally: Tally)
    requires tally.active.Keys == tally.asOf.Keys
    requires PartOf(base, x, tally, tally.active.Keys)
    ensures Begin(base) == Tally(tally.active, tally.asOf, map[], map[], [], [])
  {
  }

  /** Handing in the emitted snapshots restores exactly the tally's designations and instants. */
  lemma SnapshotsRestore(x: Setting, now: int, carried: seq<RawSnapshot>, tally: Tally)
    requires TimesRoundTrip(x) && DigestsLower(x) && Portable(tally, now)
    requires Carries(carried, Snapshots(x, tally))
    ensures AdmitSnapshots(x, now, carried).Accepted?
    ensures Begin(AdmitSnapshots(x, now, carried).value) == Tally(tally.active, tally.asOf, map[], map[], [], [])
    ensures AdmitSnapshots(x, now, carried).value.snapshots == Snapshots(x, tally)
  {
    hide TimesRoundTrip, DigestsLower, AdmitSnapshots, Carries, TakeSnapshot, StreamsIn, Begin;
    var n := |carried|;
    CarriedInPart(x, now, carried, tally, n);
    assert carried[..n] == carried;
    AllCarried(carried, Snapshots(x, tally));
    PartBegins(AdmitSnapshots(x, now, carried).value, x, tally);
  }

  // ------------------------------------------------- accepted tallies are portable

  lemma {:induction false} BaseNamed(x: Setting, now: int, raws: seq<RawSnapshot>, k: Stream)
    requires AdmitSnapshots(x, now, raws).Accepted? && k in AdmitSnapshots(x, now, raws).value.snapshots
    ensures k.entity != "" && k.source != ""
    ensures "" !in AdmitSnapshots(x, now, raws).value.snapshots[k].active
    ensures k in AdmitSnapshots(x, now, raws).value.instants
    ensures AdmitSnapshots(x, now, raws).value.instants[k] - now <= ALLOWED_FUTURE_SKEW
  {
    hide Ahead, Unique;
    var n := |raws| - 1;
    if raws[n].stream != k {
      BaseNamed(x, now, raws[..n], k);
    }
  }

  lemma NamedDesignation(x: Setting, e: Event)
    requires ShowsSomething(x) && WellNamed(e)
    ensures DesignationOf(x, e) != ""
  {
  }

  lemma TallyPortable(x: Setting, now: int, raws: seq<RawSnapshot>, events: seq<Event>)
    requires SealsFaithful(x) && ShowsSomething(x)
    requires AdmitSnapshots(x, now, raws).Accepted?
    requires AdmitEvents(x, now, AdmitSnapshots(x, now, raws).value, events).Accepted?
    requires forall e | e in events :: WellNamed(e)
    ensures var base := AdmitSnapshots(x, now, raws).value;
      Portable(Fold(x, Begin(base), InOrder(AdmitEvents(x, now, base, events).value.kept)), now)
  {
    hide *;
    var base := AdmitSnapshots(x, now, raws).value;
    var rows := InOrder(AdmitEvents(x, now, base, events).value.kept);
    var start := Begin(base);
    var tally := Fold(x, start, rows);
    BaseAligned(x, now, raws);
    BeginsAligned(base);
    RowsAreEvents(x, now, base, events);
    forall k | k in tally.active || k in tally.asOf
      ensures k in tally.active && k in tally.asOf && PortableAt(tally, now, k)
    {
      StreamsExact(x, start, rows, k);
      StreamPortable(x, now, raws, events, base, rows, k);
    }
    AllPortable(tally, now);
  }

  lemma BeginsAligned(base: Base)
    requires base.snapshots.Keys == base.instants.Keys
    ensures Begin(base).active.Keys == Begin(base).asOf.Keys == base.snapshots.Keys
  {
  }

  predicate PortableAt(tally: Tally, now: int, k: Stream)
    requires k in tally.active && k in tally.asOf
  {
    k.entity != "" && k.source != "" && "" !in tally.active[k] && tally.asOf[k] - now <= ALLOWED_FUTURE_SKEW
  }

  lemma AllPortable(tally: Tally, now: int)
    requires forall k | k in tally.active || k in tally.asOf ::
      k in tally.active && k in tally.asOf && PortableAt(tally, now, k)
    ensures Portable(tally, now)
  {
  }

  lemma StreamPortable(x: Setting, now: int, raws: seq<RawSnapshot>, events: seq<Event>, base: Base, rows: seq<Row>,
                       k: Stream)
    requires ShowsSomething(x)
    requires AdmitSnapshots(x, now, raws) == Accepted(base) && base.snapshots.Keys == base.instants.Keys
    requires forall e | e in events :: WellNamed(e)
    requires forall r | r in rows :: r.event in events && RowOf(x, now, r.event) == Accepted(r)
    requires k in Fold(x, Begin(base), rows).active && k in Fold(x, Begin(base), rows).asOf
    ensures PortableAt(Fold(x, Begin(base), rows), now, k)
  {
    hide ShowsSomething, AdmitSnapshots, Fold, DesignationOf, LastTouch;
    var start := Begin(base);
    var tally := Fold(x, start, rows);
    if k in base.snapshots { BaseNamed(x, now, raws, k); }
    StreamsExact(x, start, rows, k);
    assert k.entity != "" && k.source != "" by {
      if k !in base.snapshots {
        var i :| 0 <= i < |rows| && rows[i].event.stream == k;
        assert rows[i] in rows && WellNamed(rows[i].event);
      }
    }
    ActiveIsLive(x, start, rows, k, "");
    var i := LastTouch(x, rows, k, "");
    if 0 <= i {
      assert rows[i] in rows;
      NamedDesignation(x, rows[i].event);
    }
    AsOfExact(x, start, rows, k);
    if !(k in start.asOf && start.asOf[k] == tally.asOf[k]) {
      var j :| 0 <= j < |rows| && rows[j].event.stream == k && rows[j].instant == tally.asOf[k];
      assert rows[j] in rows;
    }
  }
}
