/** Replaying a history in two parts, the second from the emitted snapshots, against replaying it whole. */
module LifecycleComposition {
  import opened Prelude
  import opened Chronology
  import opened Lifecycle
  import opened LifecycleAdmission
  import opened LifecycleOrder
  import opened LifecycleScreening
  import opened LifecycleStreams
  import opened LifecycleContinuation

  // ------------------------------------------------------------------ acceptance

  /** Every event of the suffix is later than what its stream has reached. */
  predicate After(x: Setting, now: int, reached: map<Stream, int>, suffix: seq<Event>) {
    forall e | e in suffix && e.stream in reached :: reached[e.stream] < InstantOf(x, now, e)
  }

  predicate Unshared(prefix: seq<Event>, suffix: seq<Event>) {
    forall a, b | a in prefix && b in suffix :: IdentityOf(a) != IdentityOf(b)
  }

  /** `reached` bounds the instants of the prefix and of the snapshots it started from. */
  predicate Reaches(x: Setting, now: int, base: Base, prefix: seq<Event>, reached: map<Stream, int>) {
    && (forall k | k in base.instants :: k in reached && base.instants[k] <= reached[k])
    && (forall a | a in prefix :: a.stream in reached && InstantOf(x, now, a) <= reached[a.stream])
  }

  lemma PrefixReaches(x: Setting, now: int, base: Base, prefix: seq<Event>)
    requires SealsFaithful(x) && AdmitEvents(x, now, base, prefix).Accepted?
    ensures Reaches(x, now, base, prefix,
                    Fold(x, Begin(base), InOrder(AdmitEvents(x, now, base, prefix).value.kept)).asOf)
  {
    hide SealsFaithful, AdmitEvents, InOrder, Fold, InstantOf;
    var rows := InOrder(AdmitEvents(x, now, base, prefix).value.kept);
    var reached := Fold(x, Begin(base), rows).asOf;
    forall k | k in base.instants ensures k in reached && base.instants[k] <= reached[k] {
      AsOfExact(x, Begin(base), rows, k);
    }
    forall a | a in prefix ensures a.stream in reached && InstantOf(x, now, a) <= reached[a.stream] {
      AsOfExact(x, Begin(base), rows, a.stream);
      var i := EventReplayed(x, now, base, prefix, a);
      assert rows[i].event.stream == a.stream;
    }
  }

  lemma WholeSplits(x: Setting, now: int, base: Base, next: Base, prefix: seq<Event>, suffix: seq<Event>)
    requires SealsFaithful(x)
    requires AllAdmissible(x, now, base, prefix) && Reaches(x, now, base, prefix, next.instants)
    requires AllAdmissible(x, now, base, prefix + suffix) && AllCompatible(x, now, prefix + suffix)
    requires After(x, now, next.instants, suffix)
    ensures AllAdmissible(x, now, next, suffix) && AllCompatible(x, now, suffix) && Unshared(prefix, suffix)
  {
    hide SealsFaithful, RowOf;
    forall e | e in suffix ensures Admissible(x, now, next, e) && e in prefix + suffix {
      assert e in prefix + suffix;
      assert Admissible(x, now, base, e);
    }
    forall a, b | a in suffix && b in suffix ensures Compatible(x, now, a, b) {
      assert a in prefix + suffix && b in prefix + suffix;
    }
    forall a, b | a in prefix && b in suffix ensures IdentityOf(a) != IdentityOf(b) {
      assert a in prefix + suffix && b in prefix + suffix;
      assert Compatible(x, now, a, b) && Admissible(x, now, base, a) && Admissible(x, now, base, b);
      assert a.stream == b.stream ==> InstantOf(x, now, a) < InstantOf(x, now, b);
      if IdentityOf(a) == IdentityOf(b) { RowsAlike(x, now, a, b); }
    }
  }

  lemma PartsJoin(x: Setting, now: int, base: Base, next: Base, prefix: seq<Event>, suffix: seq<Event>)
    requires AllAdmissible(x, now, base, prefix) && AllCompatible(x, now, prefix)
    requires Reaches(x, now, base, prefix, next.instants)
    requires AllAdmissible(x, now, next, suffix) && AllCompatible(x, now, suffix) && Unshared(prefix, suffix)
    ensures AllAdmissible(x, now, base, prefix + suffix) && AllCompatible(x, now, prefix + suffix)
    ensures After(x, now, next.instants, suffix)
  {
  }

  /**
   The whole history is accepted with its second part later, stream by stream, exactly when the second
   part is accepted after the first one and no event occurs in both.
   */
  lemma AcceptanceComposes(x: Setting, now: int, base: Base, next: Base, prefix: seq<Event>, suffix: seq<Event>)
    requires SealsFaithful(x) && AdmitEvents(x, now, base, prefix).Accepted?
    requires Reaches(x, now, base, prefix, next.instants)
    ensures AdmitEvents(x, now, base, prefix + suffix).Accepted? && After(x, now, next.instants, suffix)
            <==> AdmitEvents(x, now, next, suffix).Accepted? && Unshared(prefix, suffix)
  {
    hide SealsFaithful, RowOf, AdmitEvents, Reaches, After, Unshared, AllAdmissible, AllCompatible;
    AdmittedExactly(x, now, base, prefix);
    AdmittedExactly(x, now, base, prefix + suffix);
    AdmittedExactly(x, now, next, suffix);
    if AdmitEvents(x, now, base, prefix + suffix).Accepted? && After(x, now, next.instants, suffix) {
      WholeSplits(x, now, base, next, prefix, suffix);
    } else if AdmitEvents(x, now, next, suffix).Accepted? && Unshared(prefix, suffix) {
      PartsJoin(x, now, base, next, prefix, suffix);
    }
  }

  // ------------------------------------------------------------------ the rows

  /** What is kept of the whole is what is kept of the first part and of the second, apart from one another. */
  lemma {:induction false} KeptComposes(x: Setting, now: int, base: Base, next: Base,
                                        prefix: seq<Event>, suffix: seq<Event>)
    requires Unshared(prefix, suffix)
    requires AdmitEvents(x, now, base, prefix).Accepted? && AdmitEvents(x, now, next, suffix).Accepted?
    requires AdmitEvents(x, now, base, prefix + suffix).Accepted?
    ensures var p := AdmitEvents(x, now, base, prefix).value.kept;
      var s := AdmitEvents(x, now, next, suffix).value.kept;
      p.Keys !! s.Keys && AdmitEvents(x, now, base, prefix + suffix).value.kept == p + s
  {
    hide AddEvent, Unshared;
    var p := AdmitEvents(x, now, base, prefix).value.kept;
    if suffix == [] {
      assert prefix + suffix == prefix;
      assert p + map[] == p;
    } else {
      hide AdmitEvents;
      var n := |suffix| - 1;
      var front, e, whole := suffix[..n], suffix[n], prefix + suffix;
      assert whole[..|whole| - 1] == prefix + front && whole[|whole| - 1] == e;
      UnsharedFront(prefix, suffix);
      KeptComposes(x, now, base, next, prefix, front);
      NotInPrefix(x, now, base, prefix, suffix, e);
      StepComposes(x, now, base, next, p, AdmitEvents(x, now, base, prefix + front).value,
                   AdmitEvents(x, now, next, front).value, e);
    }
  }

  lemma StepComposes(x: Setting, now: int, base: Base, next: Base, p: map<Identity, Row>, whole: Intake, part: Intake,
                     e: Event)
    requires p.Keys !! part.kept.Keys && whole.kept == p + part.kept && IdentityOf(e) !in p
    requires AddEvent(x, now, base, whole, e).Accepted? && AddEvent(x, now, next, part, e).Accepted?
    ensures p.Keys !! AddEvent(x, now, next, part, e).value.kept.Keys
    ensures AddEvent(x, now, base, whole, e).value.kept == p + AddEvent(x, now, next, part, e).value.kept
  {
    hide RowOf, Below, Ahead;
  }

  lemma UnsharedFront(prefix: seq<Event>, suffix: seq<Event>)
    requires Unshared(prefix, suffix) && suffix != []
    ensures Unshared(prefix, suffix[..|suffix| - 1])
  {
  }

  lemma {:induction false} KeysAreIdentities(x: Setting, now: int, base: Base, events: seq<Event>, i: Identity)
    requires AdmitEvents(x, now, base, events).Accepted?
    ensures i in AdmitEvents(x, now, base, events).value.kept <==> exists e :: e in events && IdentityOf(e) == i
  {
    hide RowOf, Below, Ahead;
    if events != [] {
      var n := |events| - 1;
      KeysAreIdentities(x, now, base, events[..n], i);
      assert events == events[..n] + [events[n]];
    }
  }

  lemma NotInPrefix(x: Setting, now: int, base: Base, prefix: seq<Event>, suffix: seq<Event>, e: Event)
    requires Unshared(prefix, suffix) && e in suffix && AdmitEvents(x, now, base, prefix).Accepted?
    ensures IdentityOf(e) !in AdmitEvents(x, now, base, prefix).value.kept
  {
    hide AdmitEvents;
    KeysAreIdentities(x, now, base, prefix, IdentityOf(e));
  }

  lemma RowsLined(kept: map<Identity, Row>)
    requires WellKept(kept)
    ensures Lined(InOrder(kept))
    ensures forall r :: r in InOrder(kept) <==> IdentityOf(r.event) in kept && kept[IdentityOf(r.event)] == r
  {
    hide Before, Chronological, SlotOf;
    InOrderSorted(kept);
    var rows := InOrder(kept);
    forall i, j | 0 <= i < j < |rows| ensures Before(SlotOf(rows[i]), SlotOf(rows[j])) {
      assert SlotOf(rows[i]) == Ordered(Slots(kept))[i] && SlotOf(rows[j]) == Ordered(Slots(kept))[j];
    }
  }

  /** In each stream the whole is the first part followed by the second. */
  lemma RowsCompose(p: map<Identity, Row>, s: map<Identity, Row>, k: Stream, reached: int)
    requires WellKept(p) && WellKept(s) && p.Keys !! s.Keys
    requires forall i | i in p && i.stream == k :: p[i].instant <= reached
    requires forall i | i in s && i.stream == k :: reached < s[i].instant
    ensures Of(InOrder(p + s), k) == Of(InOrder(p), k) + Of(InOrder(s), k)
  {
    hide InOrder, Of, Lined, BelowIdentity;
    RowsLined(p);
    RowsLined(s);
    RowsLined(p + s);
    var a, b, c := Of(InOrder(p), k), Of(InOrder(s), k), Of(InOrder(p + s), k);
    OfLined(InOrder(p), k);
    OfLined(InOrder(s), k);
    OfLined(InOrder(p + s), k);
    forall r ensures r in a <==> r in InOrder(p) && r.event.stream == k { OfMembers(InOrder(p), k, r); }
    forall r ensures r in b <==> r in InOrder(s) && r.event.stream == k { OfMembers(InOrder(s), k, r); }
    forall r ensures r in c <==> r in InOrder(p + s) && r.event.stream == k { OfMembers(InOrder(p + s), k, r); }
    LinedJoin(a, b, reached);
    LinedEqual(c, a + b);
  }

  lemma LinedJoin(a: seq<Row>, b: seq<Row>, reached: int)
    requires Lined(a) && Lined(b)
    requires forall r | r in a :: r.instant <= reached
    requires forall r | r in b :: reached < r.instant
    ensures Lined(a + b)
  {
  }

  // ------------------------------------------------------------------ the results

  predicate SameStart(a: Base, b: Base) {
    a.snapshots == b.snapshots && a.instants == b.instants
  }

  /** The second part starts from where the first one ended. */
  predicate StartsFrom(next: Base, tally: Tally) {
    Begin(next) == Tally(tally.active, tally.asOf, map[], map[], [], [])
  }

  lemma ViewsCompose(x: Setting, start: Tally, next: Tally, p: seq<Row>, s: seq<Row>, whole: seq<Row>, k: Stream)
    requires var tally := Fold(x, start, p); next == Tally(tally.active, tally.asOf, map[], map[], [], [])
    requires Of(whole, k) == Of(p, k) + Of(s, k)
    ensures var first, second, w := Fold(x, start, p), Fold(x, next, s), Fold(x, start, whole);
      && Found(w.active, k) == Found(second.active, k)
      && Found(w.asOf, k) == Found(second.asOf, k)
      && UnmatchedOf(w.unmatched, k) == UnmatchedOf(first.unmatched, k) + UnmatchedOf(second.unmatched, k)
  {
    hide Fold, Walk, Of;
    var first := Fold(x, start, p);
    FoldViewed(x, start, p, k);
    FoldViewed(x, next, s, k);
    FoldViewed(x, start, whole, k);
    WalkConcat(x, ViewOf(start, k), Of(p, k), Of(s, k));
    WalkAfter(x, ViewOf(first, k), Of(s, k));
    assert ViewOf(next, k) == ViewOf(first, k).(unmatched := []);
  }

  lemma PerformedJoin(x: Setting, p: seq<Row>, s: seq<Row>, whole: seq<Row>, op: Operation, deed: Deed)
    requires forall r :: r in whole <==> r in p || r in s
    ensures Performed(x, whole, op, deed) <==> Performed(x, p, op, deed) || Performed(x, s, op, deed)
  {
    hide Performs;
    if i :| 0 <= i < |whole| && Performs(x, whole[i], op, deed) {
      assert whole[i] in whole;
      if whole[i] in p {
        var j :| 0 <= j < |p| && p[j] == whole[i];
      } else {
        var j :| 0 <= j < |s| && s[j] == whole[i];
      }
    }
    if i :| 0 <= i < |p| && Performs(x, p[i], op, deed) {
      assert p[i] in whole;
      var j :| 0 <= j < |whole| && whole[j] == p[i];
    }
    if i :| 0 <= i < |s| && Performs(x, s[i], op, deed) {
      assert s[i] in whole;
      var j :| 0 <= j < |whole| && whole[j] == s[i];
    }
  }

  /** No instant of a stream is shared by the two parts. */
  predicate Apart(p: seq<Row>, s: seq<Row>) {
    forall a, b | a in p && b in s && a.event.stream == b.event.stream :: a.instant < b.instant
  }

  lemma PerformedApart(x: Setting, p: seq<Row>, s: seq<Row>, op: Operation, deed: Deed, other: Deed)
    requires Apart(p, s) && Performed(x, p, op, deed)
    ensures !Performed(x, s, op, other)
  {
  }

  lemma AmbiguitiesCompose(x: Setting, start: Tally, next: Tally, p: seq<Row>, s: seq<Row>, whole: seq<Row>)
    requires start.operations == map[] && next.operations == map[]
    requires (forall r :: r in whole <==> r in p || r in s) && Apart(p, s)
    ensures Ambiguities(Fold(x, start, whole)) == Ambiguities(Fold(x, start, p)) + Ambiguities(Fold(x, next, s))
  {
    hide Fold, Performed, Ambiguities, Apart;
    forall op
      ensures op in Ambiguities(Fold(x, start, whole))
              <==> op in Ambiguities(Fold(x, start, p)) || op in Ambiguities(Fold(x, next, s))
    {
      AmbiguitiesExact(x, start, whole, op);
      AmbiguitiesExact(x, start, p, op);
      AmbiguitiesExact(x, next, s, op);
      PerformedJoin(x, p, s, whole, op, Add);
      PerformedJoin(x, p, s, whole, op, Remove);
      if Performed(x, p, op, Add) { PerformedApart(x, p, s, op, Add, Remove); }
      if Performed(x, p, op, Remove) { PerformedApart(x, p, s, op, Remove, Add); }
    }
  }

  lemma MapsAgree<V>(a: map<Stream, V>, b: map<Stream, V>)
    requires forall k :: Found(a, k) == Found(b, k)
    ensures a == b
  {
    forall k ensures k in a <==> k in b { assert Found(a, k) == Found(b, k); }
    forall k | k in a ensures a[k] == b[k] { assert Found(a, k) == Found(b, k); }
  }

  /** The report on the whole is made up of the reports on its parts. */
  ghost predicate Composes(first: Report, second: Report, whole: Report) {
    && whole.active == second.active
    && whole.snapshots == second.snapshots
    && whole.ambiguities == first.ambiguities + second.ambiguities
    && forall k :: UnmatchedOf(whole.unmatched, k)
                   == UnmatchedOf(first.unmatched, k) + UnmatchedOf(second.unmatched, k)
  }

  /** The events are later than the snapshots of their streams. */
  predicate LaterThan(x: Setting, now: int, snapshots: map<Stream, Snapshot>, suffix: seq<Event>) {
    forall e | e in suffix && e.stream in snapshots ::
      x.parse(snapshots[e.stream].asOf).Some? && x.parse(snapshots[e.stream].asOf).value < InstantOf(x, now, e)
  }

  lemma LaterThanAfter(x: Setting, now: int, tally: Tally, suffix: seq<Event>)
    requires TimesRoundTrip(x) && tally.active.Keys == tally.asOf.Keys
    ensures LaterThan(x, now, Snapshots(x, tally), suffix) <==> After(x, now, tally.asOf, suffix)
  {
  }

  lemma KeptBounded(x: Setting, now: int, events: seq<Event>, kept: map<Identity, Row>, i: Identity)
    requires KeptRight(x, now, events, kept) && i in kept
    ensures kept[i].event in events && kept[i].event.stream == i.stream
            && InstantOf(x, now, kept[i].event) == kept[i].instant
  {
  }

  /** The rows of the two parts and of the whole, stream by stream. */
  lemma PartsOfWhole(x: Setting, now: int, base: Base, next: Base, prefix: seq<Event>, suffix: seq<Event>)
    requires SealsFaithful(x) && Unshared(prefix, suffix)
    requires AdmitEvents(x, now, base, prefix).Accepted? && AdmitEvents(x, now, next, suffix).Accepted?
    requires AdmitEvents(x, now, base, prefix + suffix).Accepted?
    requires Reaches(x, now, base, prefix, next.instants) && After(x, now, next.instants, suffix)
    ensures var p := InOrder(AdmitEvents(x, now, base, prefix).value.kept);
      var s := InOrder(AdmitEvents(x, now, next, suffix).value.kept);
      var whole := InOrder(AdmitEvents(x, now, base, prefix + suffix).value.kept);
      && (forall r :: r in whole <==> r in p || r in s)
      && Apart(p, s)
      && forall k :: Of(whole, k) == Of(p, k) + Of(s, k)
  {
    hide SealsFaithful, AdmitEvents, InOrder, KeptRight, InstantOf, Of, Unshared, AllAdmissible, AllCompatible,
         Lined, WellKept;
    KeptComposes(x, now, base, next, prefix, suffix);
    AdmissionSound(x, now, base, prefix);
    AdmissionSound(x, now, next, suffix);
    AdmissionSound(x, now, base, prefix + suffix);
    var p, s := AdmitEvents(x, now, base, prefix).value.kept, AdmitEvents(x, now, next, suffix).value.kept;
    KeptWell(x, now, prefix, p);
    KeptWell(x, now, suffix, s);
    KeptWell(x, now, prefix + suffix, p + s);
    RowsLined(p);
    RowsLined(s);
    RowsLined(p + s);
    forall i | i in p ensures i.stream in next.instants && p[i].instant <= next.instants[i.stream] {
      KeptBounded(x, now, prefix, p, i);
    }
    forall i | i in s && i.stream in next.instants ensures next.instants[i.stream] < s[i].instant {
      KeptBounded(x, now, suffix, s, i);
    }
    forall k ensures Of(InOrder(p + s), k) == Of(InOrder(p), k) + Of(InOrder(s), k) {
      if k in next.instants {
        RowsCompose(p, s, k, next.instants[k]);
      } else {
        NoRowsOf(InOrder(p), k);
        OfOnly(p, s, k);
      }
    }
  }

  lemma {:induction false} NoRowsOf(rows: seq<Row>, k: Stream)
    requires forall r | r in rows :: r.event.stream != k
    ensures Of(rows, k) == []
  {
    if rows != [] {
      assert rows[|rows| - 1] in rows;
      NoRowsOf(rows[..|rows| - 1], k);
    }
  }

  /** A stream with no event in the first part. */
  lemma OfOnly(p: map<Identity, Row>, s: map<Identity, Row>, k: Stream)
    requires WellKept(p) && WellKept(s) && p.Keys !! s.Keys
    requires Of(InOrder(p), k) == [] && forall i | i in p :: i.stream != k
    ensures Of(InOrder(p + s), k) == Of(InOrder(p), k) + Of(InOrder(s), k)
  {
    hide InOrder, Of, Before;
    RowsLined(s);
    RowsLined(p + s);
    var b, c := Of(InOrder(s), k), Of(InOrder(p + s), k);
    OfLined(InOrder(s), k);
    OfLined(InOrder(p + s), k);
    forall r ensures r in b <==> r in c { OfMembers(InOrder(s), k, r); OfMembers(InOrder(p + s), k, r); }
    LinedEqual(c, b);
    assert [] + b == b;
  }

  function TallyOf(x: Setting, base: Base, intake: Intake): Tally {
    Fold(x, Begin(base), InOrder(intake.kept))
  }

  lemma ResultsCompose(x: Setting, now: int, base: Base, next: Base, prefix: seq<Event>, suffix: seq<Event>)
    requires SealsFaithful(x) && Unshared(prefix, suffix)
    requires AdmitEvents(x, now, base, prefix).Accepted? && AdmitEvents(x, now, next, suffix).Accepted?
    requires AdmitEvents(x, now, base, prefix + suffix).Accepted?
    requires StartsFrom(next, TallyOf(x, base, AdmitEvents(x, now, base, prefix).value))
    requires Reaches(x, now, base, prefix, next.instants) && After(x, now, next.instants, suffix)
    ensures var first := TallyOf(x, base, AdmitEvents(x, now, base, prefix).value);
      var second := TallyOf(x, next, AdmitEvents(x, now, next, suffix).value);
      var whole := TallyOf(x, base, AdmitEvents(x, now, base, prefix + suffix).value);
      && whole.active == second.active
      && whole.asOf == second.asOf
      && Ambiguities(whole) == Ambiguities(first) + Ambiguities(second)
      && forall k :: UnmatchedOf(whole.unmatched, k)
                     == UnmatchedOf(first.unmatched, k) + UnmatchedOf(second.unmatched, k)
  {
    hide SealsFaithful, AdmitEvents, InOrder, Fold, Of, Apart, Unshared, Reaches, After, Ambiguities, UnmatchedOf,
      Found;
    PartsOfWhole(x, now, base, next, prefix, suffix);
    var p := InOrder(AdmitEvents(x, now, base, prefix).value.kept);
    var s := InOrder(AdmitEvents(x, now, next, suffix).value.kept);
    var w := InOrder(AdmitEvents(x, now, base, prefix + suffix).value.kept);
    var first, second, whole := Fold(x, Begin(base), p), Fold(x, Begin(next), s), Fold(x, Begin(base), w);
    forall k
      ensures Found(whole.active, k) == Found(second.active, k)
      ensures Found(whole.asOf, k) == Found(second.asOf, k)
      ensures UnmatchedOf(whole.unmatched, k) == UnmatchedOf(first.unmatched, k) + UnmatchedOf(second.unmatched, k)
    {
      ViewsCompose(x, Begin(base), Begin(next), p, s, w, k);
    }
    MapsAgree(whole.active, second.active);
    MapsAgree(whole.asOf, second.asOf);
    AmbiguitiesCompose(x, Begin(base), Begin(next), p, s, w);
  }

  lemma {:induction false} EventsLater(x: Setting, now: int, later: int, base: Base, same: Base, events: seq<Event>)
    requires now <= later && base.instants == same.instants
    requires AdmitEvents(x, now, base, events).Accepted?
    ensures AdmitEvents(x, later, same, events).Accepted?
    ensures AdmitEvents(x, later, same, events).value.kept == AdmitEvents(x, now, base, events).value.kept
  {
    hide RowOf, Below, Ahead;
    if events != [] {
      var n := |events| - 1;
      EventsLater(x, now, later, base, same, events[..n]);
      RowLater(x, now, later, events[n]);
    }
  }

  /** The bases of the three replays: the first one read again later, and the one handed on. */
  lemma BasesAligned(x: Setting, now: int, later: int, raws: seq<RawSnapshot>, carried: seq<RawSnapshot>,
                     prefix: seq<Event>)
    requires Lawful(x) && now <= later
    requires AdmitSnapshots(x, now, raws).Accepted?
    requires AdmitEvents(x, now, AdmitSnapshots(x, now, raws).value, prefix).Accepted?
    requires forall e | e in prefix :: WellNamed(e)
    requires var base := AdmitSnapshots(x, now, raws).value;
      Carries(carried, Snapshots(x, TallyOf(x, base, AdmitEvents(x, now, base, prefix).value)))
    ensures AdmitSnapshots(x, later, raws).Accepted? && AdmitSnapshots(x, later, carried).Accepted?
    ensures var base := AdmitSnapshots(x, now, raws).value;
      var tally := TallyOf(x, base, AdmitEvents(x, now, base, prefix).value);
      var again, next := AdmitSnapshots(x, later, raws).value, AdmitSnapshots(x, later, carried).value;
      && SameStart(again, base) && tally.active.Keys == tally.asOf.Keys
      && AdmitEvents(x, later, again, prefix).Accepted?
      && TallyOf(x, again, AdmitEvents(x, later, again, prefix).value) == tally
      && StartsFrom(next, tally)
      && Reaches(x, later, again, prefix, tally.asOf)
  {
    hide AdmitSnapshots, AdmitEvents, InOrder, Fold, Carries, Snapshots, TimesRoundTrip, DigestsLower, ShowsSomething,
         SealsFaithful, WellNamed, Reaches;
    var base := AdmitSnapshots(x, now, raws).value;
    var tally := TallyOf(x, base, AdmitEvents(x, now, base, prefix).value);
    SnapshotsLater(x, now, later, raws);
    var again := AdmitSnapshots(x, later, raws).value;
    EventsLater(x, now, later, base, again, prefix);
    assert Begin(again) == Begin(base);
    TallyPortable(x, now, raws, prefix);
    SnapshotsRestore(x, later, carried, tally);
    PrefixReaches(x, later, again, prefix);
  }

  lemma ReportParts(x: Setting, now: int, claim: Claim, raws: seq<RawSnapshot>, incoming: seq<Event>)
    requires AdmitSnapshots(x, now, raws).Accepted?
    requires AdmitEvents(x, now, AdmitSnapshots(x, now, raws).value, incoming).Accepted?
    ensures Replay(x, now, claim, raws, incoming).Accepted?
    ensures var base := AdmitSnapshots(x, now, raws).value;
      var tally := TallyOf(x, base, AdmitEvents(x, now, base, incoming).value);
      var r := Replay(x, now, claim, raws, incoming).value;
      r.active == tally.active && r.snapshots == Snapshots(x, tally)
      && r.ambiguities == Ambiguities(tally) && r.unmatched == tally.unmatched
  {
  }

  /**
   A history replayed in two parts, the second one continuing from the snapshots the first one emitted,
   gives what the whole history gives: the same designations and snapshots, the ambiguities together,
   the unmatched removals one after the other. The whole with a later second part is accepted exactly
   when the continuation is and no event is in both parts.
   */
  lemma ContinuationRefinesReplay(
    x: Setting, now: int, later: int, raws: seq<RawSnapshot>, carried: seq<RawSnapshot>,
    prefix: seq<Event>, suffix: seq<Event>, claim: Claim, onward: Claim, entire: Claim)
    requires Lawful(x) && now <= later
    requires forall e | e in prefix :: WellNamed(e)
    requires Replay(x, now, claim, raws, prefix).Accepted?
    requires Carries(carried, Replay(x, now, claim, raws, prefix).value.snapshots)
    ensures var first := Replay(x, now, claim, raws, prefix).value;
      var second, whole := Replay(x, later, onward, carried, suffix), Replay(x, later, entire, raws, prefix + suffix);
      && (whole.Accepted? && LaterThan(x, later, first.snapshots, suffix)
          <==> second.Accepted? && Unshared(prefix, suffix))
      && (second.Accepted? && Unshared(prefix, suffix) ==> Composes(first, second.value, whole.value))
  {
    hide AdmitSnapshots, AdmitEvents, TallyOf, Carries, Snapshots, TimesRoundTrip, DigestsLower, ShowsSomething,
         SealsFaithful, WellNamed, Reaches, After, LaterThan, Unshared, Ambiguities, Replay, UnmatchedOf;
    AcceptedParts(x, now, claim, raws, prefix);
    ReportParts(x, now, claim, raws, prefix);
    BasesAligned(x, now, later, raws, carried, prefix);
    var base := AdmitSnapshots(x, now, raws).value;
    var tally := TallyOf(x, base, AdmitEvents(x, now, base, prefix).value);
    var again, next := AdmitSnapshots(x, later, raws).value, AdmitSnapshots(x, later, carried).value;
    assert next.instants == tally.asOf;
    AcceptanceComposes(x, later, again, next, prefix, suffix);
    LaterThanAfter(x, later, tally, suffix);
    AcceptedExactly(x, later, onward, carried, suffix);
    AcceptedExactly(x, later, entire, raws, prefix + suffix);
    if AdmitEvents(x, later, next, suffix).Accepted? && Unshared(prefix, suffix) {
      ResultsCompose(x, later, again, next, prefix, suffix);
      ReportParts(x, later, onward, carried, suffix);
      ReportParts(x, later, entire, raws, prefix + suffix);
      SnapshotsSame(x, TallyOf(x, next, AdmitEvents(x, later, next, suffix).value),
                    TallyOf(x, again, AdmitEvents(x, later, again, prefix + suffix).value));
    }
  }

  lemma AcceptedExactly(x: Setting, now: int, claim: Claim, raws: seq<RawSnapshot>, incoming: seq<Event>)
    requires AdmitSnapshots(x, now, raws).Accepted?
    ensures Replay(x, now, claim, raws, incoming).Accepted?
            <==> AdmitEvents(x, now, AdmitSnapshots(x, now, raws).value, incoming).Accepted?
  {
  }

  lemma SnapshotsSame(x: Setting, a: Tally, b: Tally)
    requires a.active == b.active && a.asOf == b.asOf
    ensures Snapshots(x, a) == Snapshots(x, b)
  {
  }
}
