/**
 Copies of one event with their payload members in different orders: they share a digest, so the replay
 keeps the first one with the least spelling, but `str` of an object shows the order, so they may name
 different designations. Exactly then the order of arrival matters.
 */
module LifecycleCopies {
  import opened Prelude
  import opened Chronology
  import opened Payloads
  import opened Lifecycle
  import opened LifecycleAdmission
  import opened LifecycleOrder

  predicate Touching(kind: Kind) { DeedOf(kind).Some? }

  /** No copy of the event spells its instant lower, so that arriving first it is the one kept. */
  predicate Leading(events: seq<Event>, a: Event) {
    a in events && forall e | e in events && IdentityOf(e) == IdentityOf(a) :: !Below(e.time, a.time)
  }

  /** The copies that could be kept of an event all name the same designation. */
  predicate Uniform(x: Setting, events: seq<Event>) {
    forall a, b | a in events && b in events ::
      Leading(events, a) && Leading(events, b) && IdentityOf(a) == IdentityOf(b) && Touching(a.kind)
      ==> DesignationOf(x, a) == DesignationOf(x, b)
  }

  /** The rows tell the same event, and name the same designation if it matters. */
  predicate SameRow(x: Setting, r: Row, s: Row) {
    AlikeRows(r, s) && (Touching(r.event.kind) ==> DesignationOf(x, r.event) == DesignationOf(x, s.event))
  }

  predicate SameKept(x: Setting, kept: map<Identity, Row>, other: map<Identity, Row>) {
    kept.Keys == other.Keys && forall i | i in kept :: SameRow(x, kept[i], other[i])
  }

  function Tells(events: seq<Event>): (r: seq<Told>)
    ensures |r| == |events| && forall i | 0 <= i < |r| :: r[i] == Tell(events[i])
  {
    seq(|events|, i requires 0 <= i < |events| => Tell(events[i]))
  }

  /** The verifier does not look at the order of members within payloads. */
  ghost predicate Indifferent(claim: Claim) {
    claim.verifier.Some? ==>
      forall k, a, b, s | Tells(a) == Tells(b) :: claim.verifier.value(k, a, s) == claim.verifier.value(k, b, s)
  }

  // ------------------------------------------------------------ from rows to report

  lemma InOrderSame(x: Setting, kept: map<Identity, Row>, other: map<Identity, Row>)
    requires SameKept(x, kept, other)
    ensures |InOrder(kept)| == |InOrder(other)|
    ensures forall i | 0 <= i < |InOrder(kept)| :: SameRow(x, InOrder(kept)[i], InOrder(other)[i])
  {
    hide DesignationOf, Tell, SameRow;
    forall i | i in kept ensures kept[i].instant == other[i].instant { SameInstant(x, kept[i], other[i]); }
    assert Slots(kept) == Slots(other);
    var slots := Ordered(Slots(kept));
    forall i | 0 <= i < |slots| ensures SameRow(x, InOrder(kept)[i], InOrder(other)[i]) {
      assert slots[i] in slots && slots[i] in Slots(kept);
    }
  }

  lemma SameInstant(x: Setting, r: Row, s: Row)
    requires SameRow(x, r, s)
    ensures r.instant == s.instant
  {
  }

  predicate SameTally(a: Tally, b: Tally) {
    && a.(history := b.history) == b
    && a.history.Keys == b.history.Keys
    && forall k | k in a.history :: Tells(a.history[k]) == Tells(b.history[k])
  }

  lemma HistoryAdvanced(x: Setting, tally: Tally, row: Row)
    ensures Advance(x, tally, row).history
            == tally.history[row.event.stream := Lookup(tally.history, row.event.stream, []) + [row.event]]
  {
    hide DesignationOf, Noted;
  }

  lemma AdvanceBut(x: Setting, a: Tally, b: Tally, r: Row, s: Row)
    requires a.(history := b.history) == b && SameRow(x, r, s)
    ensures var p, q := Advance(x, a, r), Advance(x, b, s); p.(history := q.history) == q
  {
    hide DesignationOf, Noted, CanonicalPayload, SameRow, AlikeRows, Tell;
    RowParts(x, r, s);
  }

  /** What the replay looks at in a row. */
  lemma RowParts(x: Setting, r: Row, s: Row)
    requires SameRow(x, r, s)
    ensures r.event.stream == s.event.stream && r.event.kind == s.event.kind && r.event.id == s.event.id
    ensures r.instant == s.instant
    ensures Touching(r.event.kind) ==> DesignationOf(x, r.event) == DesignationOf(x, s.event)
  {
    hide DesignationOf, CanonicalPayload;
  }

  lemma AdvanceSame(x: Setting, a: Tally, b: Tally, r: Row, s: Row)
    requires SameTally(a, b) && SameRow(x, r, s)
    ensures SameTally(Advance(x, a, r), Advance(x, b, s))
  {
    hide DesignationOf, Advance, Tells, CanonicalPayload;
    AdvanceBut(x, a, b, r, s);
    HistoryAdvanced(x, a, r);
    HistoryAdvanced(x, b, s);
    var k := r.event.stream;
  }

  lemma {:induction false} FoldSame(x: Setting, start: Tally, a: seq<Row>, b: seq<Row>)
    requires |a| == |b| && forall i | 0 <= i < |a| :: SameRow(x, a[i], b[i])
    ensures SameTally(Fold(x, start, a), Fold(x, start, b))
  {
    hide SameRow, Advance, Tells;
    if a != [] {
      var n := |a| - 1;
      FoldSame(x, start, a[..n], b[..n]);
      AdvanceSame(x, Fold(x, start, a[..n]), Fold(x, start, b[..n]), a[n], b[n]);
    }
  }

  lemma VerifiedSame(claim: Claim, base: Base, a: Tally, b: Tally)
    requires Indifferent(claim) && SameTally(a, b)
    ensures HistoryVerified(claim, base, a) == HistoryVerified(claim, base, b)
  {
    hide Tells;
    if claim.verifier.Some? {
      forall k
        ensures claim.verifier.value(k, HistoryOf(a, k), SnapshotOf(base, k))
                == claim.verifier.value(k, HistoryOf(b, k), SnapshotOf(base, k))
      {
        assert Tells(HistoryOf(a, k)) == Tells(HistoryOf(b, k));
      }
    }
  }

  lemma RowsTold(x: Setting, a: seq<Row>, b: seq<Row>)
    requires |a| == |b| && forall i | 0 <= i < |a| :: SameRow(x, a[i], b[i])
    ensures forall i | 0 <= i < |a| :: Tell(a[i].event) == Tell(b[i].event) && a[i].instant == b[i].instant
  {
    hide DesignationOf, Tell;
  }

  lemma StateTold(a: Event, b: Event)
    requires Tell(a) == Tell(b)
    ensures a.state == b.state && a.kind == b.kind && a.stream == b.stream && a.id == b.id
  {
  }

  lemma GatesSame(now: int, a: seq<Row>, b: seq<Row>)
    requires |a| == |b|
    requires forall i | 0 <= i < |a| :: Tell(a[i].event) == Tell(b[i].event) && a[i].instant == b[i].instant
    ensures Degraded(a) == Degraded(b) && SomeObserved(a) == SomeObserved(b) && IsStale(now, a) == IsStale(now, b)
  {
    hide Tell;
    forall i | 0 <= i < |a| ensures a[i].event.state == b[i].event.state { StateTold(a[i].event, b[i].event); }
  }

  lemma ReportSame(x: Setting, now: int, claim: Claim, base: Base, s: Intake, t: Intake)
    requires Indifferent(claim) && SameKept(x, s.kept, t.kept) && s.skew == t.skew
    requires multiset(s.duplicates) == multiset(t.duplicates)
    ensures var a, b := InOrder(s.kept), InOrder(t.kept);
      ReportOn(x, now, claim, base, s, a, Fold(x, Begin(base), a))
      == ReportOn(x, now, claim, base, t, b, Fold(x, Begin(base), b))
  {
    hide Tell, InOrder, Fold, HistoryVerified, SameKept, SameRow, Indifferent, Degraded, SomeObserved, IsStale, Tells;
    var a, b := InOrder(s.kept), InOrder(t.kept);
    InOrderSame(x, s.kept, t.kept);
    FoldSame(x, Begin(base), a, b);
    VerifiedSame(claim, base, Fold(x, Begin(base), a), Fold(x, Begin(base), b));
    RowsTold(x, a, b);
    GatesSame(now, a, b);
    var p := seq(|a|, i requires 0 <= i < |a| => Tell(a[i].event));
    var q := seq(|b|, i requires 0 <= i < |b| => Tell(b[i].event));
    assert p == q;
  }

  // ------------------------------------------------------------------ order and copies

  lemma KeptLeads(x: Setting, now: int, events: seq<Event>, kept: map<Identity, Row>, i: Identity)
    requires KeptRight(x, now, events, kept) && i in kept
    ensures Leading(events, kept[i].event) && IdentityOf(kept[i].event) == i
  {
    assert Represents(x, now, events, i, kept[i]);
  }

  lemma UniformKept(x: Setting, now: int, a: seq<Event>, b: seq<Event>,
                    kept: map<Identity, Row>, other: map<Identity, Row>)
    requires (forall e :: e in a <==> e in b) && Uniform(x, a)
    requires KeptRight(x, now, a, kept) && KeptRight(x, now, b, other) && KeptAlike(kept, other)
    ensures SameKept(x, kept, other)
  {
    hide DesignationOf, Tell, KeptRight, Below;
    forall i | i in kept ensures SameRow(x, kept[i], other[i]) {
      KeptLeads(x, now, a, kept, i);
      KeptLeads(x, now, b, other, i);
      assert Leading(a, other[i].event);
    }
  }

  lemma AdmissionUniform(x: Setting, now: int, base: Base, a: seq<Event>, b: seq<Event>)
    requires SealsFaithful(x) && Uniform(x, a) && forall e :: e in a <==> e in b
    ensures AdmitEvents(x, now, base, a).Accepted? <==> AdmitEvents(x, now, base, b).Accepted?
    ensures AdmitEvents(x, now, base, a).Accepted? ==>
      && SameKept(x, AdmitEvents(x, now, base, a).value.kept, AdmitEvents(x, now, base, b).value.kept)
      && AdmitEvents(x, now, base, a).value.skew == AdmitEvents(x, now, base, b).value.skew
  {
    hide SealsFaithful, Uniform, AdmitEvents, SameKept, KeptAlike, KeptRight, AllAdmissible, AllCompatible, SkewRight;
    AdmissionIgnoresOrder(x, now, base, a, b);
    if AdmitEvents(x, now, base, a).Accepted? {
      AdmissionSound(x, now, base, a);
      AdmissionSound(x, now, base, b);
      UniformKept(x, now, a, b, AdmitEvents(x, now, base, a).value.kept, AdmitEvents(x, now, base, b).value.kept);
    }
  }

  /** The report but for the list of duplicates. */
  function WithoutDuplicates(r: Outcome<Report>): Option<Report> {
    if r.Accepted? then Some(r.value.(duplicates := multiset{})) else None
  }

  /** Adding copies of events already there changes nothing but the list of duplicates. */
  lemma ReplayAbsorbsCopies(x: Setting, now: int, claim: Claim, raws: seq<RawSnapshot>, a: seq<Event>, b: seq<Event>)
    requires SealsFaithful(x) && Indifferent(claim) && Uniform(x, a)
    requires forall e :: e in a <==> e in b
    ensures WithoutDuplicates(Replay(x, now, claim, raws, a)) == WithoutDuplicates(Replay(x, now, claim, raws, b))
  {
    hide SealsFaithful, AdmitEvents, InOrder, Fold, Indifferent, Uniform, SameKept;
    if AdmitSnapshots(x, now, raws).Accepted? {
      var base := AdmitSnapshots(x, now, raws).value;
      AdmissionUniform(x, now, base, a, b);
      if AdmitEvents(x, now, base, a).Accepted? {
        var s, t := AdmitEvents(x, now, base, a).value, AdmitEvents(x, now, base, b).value;
        ReportSame(x, now, claim, base, s.(duplicates := []), t.(duplicates := []));
      }
    }
  }

  predicate SameOutcome(a: Outcome<Report>, b: Outcome<Report>) {
    a == b || (a.Rejected? && b.Rejected?)
  }

  lemma DuplicatesPermuted(x: Setting, now: int, base: Base, a: seq<Event>, b: seq<Event>)
    requires multiset(a) == multiset(b)
    requires AdmitEvents(x, now, base, a).Accepted? && AdmitEvents(x, now, base, b).Accepted?
    requires AdmitEvents(x, now, base, a).value.kept.Keys == AdmitEvents(x, now, base, b).value.kept.Keys
    ensures multiset(AdmitEvents(x, now, base, a).value.duplicates)
            == multiset(AdmitEvents(x, now, base, b).value.duplicates)
  {
    hide AdmitEvents;
    var s, t := AdmitEvents(x, now, base, a).value, AdmitEvents(x, now, base, b).value;
    forall id ensures multiset(s.duplicates)[id] == multiset(t.duplicates)[id] {
      DuplicatesCounted(x, now, base, a, id);
      DuplicatesCounted(x, now, base, b, id);
      TimesPermuted(a, b, id);
      assert Named(s.kept, id) == Named(t.kept, id);
    }
    assert multiset(s.duplicates) == multiset(t.duplicates);
  }

  /** When the copies agree, the order of the incoming events does not matter: the whole report is the same. */
  lemma ReplayIgnoresOrder(x: Setting, now: int, claim: Claim, raws: seq<RawSnapshot>, a: seq<Event>, b: seq<Event>)
    requires SealsFaithful(x) && Indifferent(claim) && Uniform(x, a)
    requires multiset(a) == multiset(b)
    ensures var r, s := Replay(x, now, claim, raws, a), Replay(x, now, claim, raws, b);
      r == s || (r.Rejected? && s.Rejected?)
  {
    hide SealsFaithful, AdmitEvents, InOrder, Fold, Indifferent, Uniform, SameRow;
    forall e ensures e in a <==> e in b { assert e in multiset(a) <==> e in multiset(b); }
    if AdmitSnapshots(x, now, raws).Accepted? {
      var base := AdmitSnapshots(x, now, raws).value;
      AdmissionUniform(x, now, base, a, b);
      if AdmitEvents(x, now, base, a).Accepted? {
        DuplicatesPermuted(x, now, base, a, b);
        ReportSame(x, now, claim, base, AdmitEvents(x, now, base, a).value, AdmitEvents(x, now, base, b).value);
      }
    }
  }

  // --------------------------------------------------- exactly when the order matters

  function KeptOf(x: Setting, now: int, base: Base, events: seq<Event>): map<Identity, Row> {
    var r := AdmitEvents(x, now, base, events);
    if r.Accepted? then r.value.kept else map[]
  }

  /** In whatever order the events arrive, the same events are replayed with the same designations. */
  ghost predicate OrderFree(x: Setting, now: int, base: Base, events: seq<Event>) {
    forall b | multiset(b) == multiset(events) :: SameKept(x, KeptOf(x, now, base, events), KeptOf(x, now, base, b))
  }

  /** A leading event that arrives first is kept. */
  lemma {:induction false} FirstLeads(x: Setting, now: int, base: Base, p: seq<Event>)
    requires p != [] && AdmitEvents(x, now, base, p).Accepted? && Leading(p, p[0])
    ensures IdentityOf(p[0]) in AdmitEvents(x, now, base, p).value.kept
    ensures AdmitEvents(x, now, base, p).value.kept[IdentityOf(p[0])].event == p[0]
  {
    hide Below, Ahead;
    var n := |p| - 1;
    if n == 0 {
      assert p[..0] == [];
    } else {
      var front := p[..n];
      assert p == front + [p[n]];
      FirstLeads(x, now, base, front);
    }
  }

  lemma FrontOf(events: seq<Event>, c: Event) returns (p: seq<Event>)
    requires c in events
    ensures p != [] && p[0] == c && multiset(p) == multiset(events)
    ensures forall e :: e in p <==> e in events
  {
    var j :| 0 <= j < |events| && events[j] == c;
    p := [c] + (events[..j] + events[j + 1..]);
    assert events == events[..j] + [c] + events[j + 1..];
    forall e ensures e in p <==> e in events { assert e in multiset(p) <==> e in multiset(events); }
  }

  lemma CopiesMatch(x: Setting, now: int, base: Base, events: seq<Event>, a: Event, b: Event)
    requires SealsFaithful(x) && AdmitEvents(x, now, base, events).Accepted?
    requires a in events && b in events && IdentityOf(a) == IdentityOf(b)
    ensures CopyOf(a, b) && a.kind == b.kind
  {
    hide SealsFaithful, RowOf, AdmitEvents;
    AdmissionSound(x, now, base, events);
    assert Admissible(x, now, base, a) && Admissible(x, now, base, b) && Compatible(x, now, a, b);
    RowsAlike(x, now, a, b);
  }

  /** Two leading copies that name different designations: putting one of them first changes the replay. */
  lemma DisagreementShows(x: Setting, now: int, base: Base, events: seq<Event>, a: Event, b: Event)
    requires SealsFaithful(x) && AdmitEvents(x, now, base, events).Accepted?
    requires Leading(events, a) && Leading(events, b) && IdentityOf(a) == IdentityOf(b) && Touching(a.kind)
    requires DesignationOf(x, a) != DesignationOf(x, b)
    ensures !OrderFree(x, now, base, events)
  {
    hide SealsFaithful, AdmitEvents, DesignationOf, Below, Tell;
    AdmissionSound(x, now, base, events);
    CopiesMatch(x, now, base, events, a, b);
    var i := IdentityOf(a);
    var kept := AdmitEvents(x, now, base, events).value.kept;
    KeptLeads(x, now, events, kept, i);
    CopiesMatch(x, now, base, events, a, kept[i].event);
    var c := if DesignationOf(x, a) != DesignationOf(x, kept[i].event) then a else b;
    var p := FrontOf(events, c);
    AdmissionIgnoresOrder(x, now, base, events, p);
    FirstLeads(x, now, base, p);
    assert !SameRow(x, kept[i], KeptOf(x, now, base, p)[i]);
  }

  /**
   The order of arrival is irrelevant if and only if the copies of each event that could be kept name one
   designation. Nothing but the events themselves is looked at.
   */
  lemma OrderIndependentExactly(x: Setting, now: int, base: Base, events: seq<Event>)
    requires SealsFaithful(x) && AdmitEvents(x, now, base, events).Accepted?
    ensures OrderFree(x, now, base, events) <==> Uniform(x, events)
  {
    hide SealsFaithful, AdmitEvents, SameKept, Leading, DesignationOf;
    if Uniform(x, events) {
      forall b | multiset(b) == multiset(events)
        ensures SameKept(x, KeptOf(x, now, base, events), KeptOf(x, now, base, b))
      {
        forall e ensures e in events <==> e in b { assert e in multiset(events) <==> e in multiset(b); }
        AdmissionUniform(x, now, base, events, b);
      }
    } else {
      var a, b :| a in events && b in events && Leading(events, a) && Leading(events, b)
                  && IdentityOf(a) == IdentityOf(b) && Touching(a.kind) && DesignationOf(x, a) != DesignationOf(x, b);
      DisagreementShows(x, now, base, events, a, b);
    }
  }

  // ------------------------------------------------ a condition on each event by itself

  predicate RealEvent(e: Event) {
    forall k | k in e.payload :: Real(e.payload[k])
  }

  /** The value that names the event's designation holds no object with two members. */
  predicate Firm(e: Event) {
    Touching(e.kind) ==> Chosen(e.payload).None? || Orderless(Chosen(e.payload).value)
  }

  /** Different values have different texts. */
  ghost predicate ShowsFaithful(x: Setting) {
    forall v, w | x.show(v) == x.show(w) && !v.Text? && !w.Text? :: v == w
  }

  lemma ChosenAlike(p: Payload, q: Payload)
    requires CanonicalPayload(p) == CanonicalPayload(q)
    ensures Chosen(p).Some? == Chosen(q).Some?
    ensures Chosen(p).Some? ==> Canonical(Chosen(p).value) == Canonical(Chosen(q).value)
  {
    hide Canonical, Truthy;
    forall k ensures (k in p <==> k in q) && (k in p ==> Truthy(p[k]) == Truthy(q[k])) {
      assert k in CanonicalPayload(p) <==> k in CanonicalPayload(q);
      if k in p {
        assert CanonicalPayload(p)[k] == CanonicalPayload(q)[k];
        TruthyCanonical(p[k], q[k]);
      }
    }
    forall k | k in p ensures Canonical(p[k]) == Canonical(q[k]) {
      assert CanonicalPayload(p)[k] == CanonicalPayload(q)[k];
    }
  }

  lemma FirmCopies(x: Setting, e: Event, f: Event)
    requires CopyOf(e, f) && RealEvent(e) && RealEvent(f) && Firm(e) && Touching(e.kind)
    ensures DesignationOf(x, e) == DesignationOf(x, f)
  {
    hide CanonicalPayload, Canonical, Orderless, Real;
    ChosenAlike(e.payload, f.payload);
    if Chosen(e.payload).Some? {
      OrderlessDetermined(Chosen(e.payload).value, Chosen(f.payload).value);
    }
  }

  /** Firm events agree whatever their copies look like. */
  lemma FirmUniform(x: Setting, now: int, base: Base, events: seq<Event>)
    requires SealsFaithful(x) && AdmitEvents(x, now, base, events).Accepted?
    requires forall e | e in events :: RealEvent(e) && Firm(e)
    ensures Uniform(x, events)
  {
    hide SealsFaithful, AdmitEvents, Leading, DesignationOf, RealEvent, Firm, CopyOf;
    forall a, b | a in events && b in events && Leading(events, a) && Leading(events, b)
                  && IdentityOf(a) == IdentityOf(b) && Touching(a.kind)
      ensures DesignationOf(x, a) == DesignationOf(x, b)
    {
      CopiesMatch(x, now, base, events, a, b);
      FirmCopies(x, a, b);
    }
  }

  lemma PayloadReordered(p: Payload, k: string, w: Value)
    requires k in p && Canonical(w) == Canonical(p[k])
    ensures CanonicalPayload(p[k := w]) == CanonicalPayload(p)
  {
    hide Canonical;
  }

  /** Any other event has a copy that names another designation. */
  lemma OtherCopy(x: Setting, e: Event) returns (f: Event)
    requires RealEvent(e) && !Firm(e) && ShowsFaithful(x)
    ensures CopyOf(e, f) && f.time == e.time && RealEvent(f)
    ensures DesignationOf(x, e) != DesignationOf(x, f)
  {
    hide CanonicalPayload, Canonical, Orderless, Real;
    var k := if Names(e.payload, "designation_id") then "designation_id" else "target_event_id";
    assert Chosen(e.payload) == Some(e.payload[k]);
    var w := Reorder(e.payload[k]);
    PayloadReordered(e.payload, k, w);
    TruthyCanonical(e.payload[k], w);
    f := e.(payload := e.payload[k := w]);
    assert Chosen(f.payload) == Some(w);
  }

  // ----------------------------------------------------------- two copies, two reports

  lemma CopyRow(x: Setting, now: int, e: Event, f: Event)
    requires CopyOf(e, f) && f.time == e.time && RowOf(x, now, e).Accepted?
    ensures RowOf(x, now, f) == Accepted(RowOf(x, now, e).value.(event := f))
  {
    hide CanonicalPayload;
  }

  lemma FirstCopyKept(x: Setting, now: int, e: Event, f: Event)
    requires CopyOf(e, f) && f.time == e.time && RowOf(x, now, e).Accepted?
    ensures AdmitEvents(x, now, NO_BASE, [e, f]).Accepted?
    ensures AdmitEvents(x, now, NO_BASE, [e, f]).value.kept == map[IdentityOf(e) := RowOf(x, now, e).value]
  {
    hide RowOf, Below, Ahead, CanonicalPayload;
    CopyRow(x, now, e, f);
    RowCarries(x, now, e);
    BelowTotal(e.time, e.time);
    assert [e, f][..1] == [e] && [e][..0] == [];
    assert AdmitEvents(x, now, NO_BASE, []) == Accepted(Intake(map[], [], 0));
    assert AdmitEvents(x, now, NO_BASE, [e]).Accepted?;
  }

  lemma OneRow(i: Identity, row: Row)
    ensures InOrder(map[i := row]) == [row]
  {
    var kept, slot := map[i := row], Slot(row.instant, i);
    assert i in kept && kept.Keys == {i};
    assert slot in Slots(kept);
    assert Slots(kept) == {slot};
    assert Sorted([slot]);
    SortedEqual(Ordered({slot}), [slot]);
  }

  lemma FirstAdvance(x: Setting, row: Row)
    ensures var e, t := row.event, Advance(x, Begin(NO_BASE), row);
      && (e.kind.DesignationAdded? ==> t.active == map[e.stream := {DesignationOf(x, e)}])
      && (IsRemoval(e.kind) ==> t.unmatched == [Removal(e.stream, DesignationOf(x, e), e.id)])
  {
    hide DesignationOf, Noted;
    var e := row.event;
    assert Begin(NO_BASE).active == map[];
    assert {} + {DesignationOf(x, e)} == {DesignationOf(x, e)};
  }

  lemma FirstCopyReported(x: Setting, now: int, claim: Claim, e: Event, f: Event)
    requires CopyOf(e, f) && f.time == e.time && RowOf(x, now, e).Accepted?
    ensures Replay(x, now, claim, [], [e, f]).Accepted?
    ensures var r := Replay(x, now, claim, [], [e, f]).value;
      && (e.kind.DesignationAdded? ==> r.active == map[e.stream := {DesignationOf(x, e)}])
      && (IsRemoval(e.kind) ==> r.unmatched == [Removal(e.stream, DesignationOf(x, e), e.id)])
  {
    hide RowOf, AdmitEvents, InOrder, DesignationOf, Advance, HistoryVerified, Reasons, Screen, Snapshots, Ambiguities;
    FirstCopyKept(x, now, e, f);
    RowCarries(x, now, e);
    var row := RowOf(x, now, e).value;
    OneRow(IdentityOf(e), row);
    assert [row][..0] == [];
    assert Fold(x, Begin(NO_BASE), [row]) == Advance(x, Begin(NO_BASE), row);
    assert AdmitSnapshots(x, now, []) == Accepted(NO_BASE);
    FirstAdvance(x, row);
  }

  lemma CopyBack(e: Event, f: Event)
    requires CopyOf(e, f) && f.time == e.time
    ensures CopyOf(f, e) && e.stream == f.stream && e.kind == f.kind && e.id == f.id
  {
  }

  lemma TwoReports(x: Setting, now: int, claim: Claim, e: Event, f: Event)
    requires CopyOf(e, f) && f.time == e.time && RowOf(x, now, e).Accepted? && Touching(e.kind)
    requires DesignationOf(x, e) != DesignationOf(x, f)
    ensures !SameOutcome(Replay(x, now, claim, [], [e, f]), Replay(x, now, claim, [], [f, e]))
  {
    hide RowOf, Replay, DesignationOf, CopyOf;
    CopyBack(e, f);
    CopyRow(x, now, e, f);
    FirstCopyReported(x, now, claim, e, f);
    FirstCopyReported(x, now, claim, f, e);
    DifferentKeys(e.stream, DesignationOf(x, e), DesignationOf(x, f));
  }

  lemma DifferentKeys(k: Stream, d: string, c: string)
    requires d != c
    ensures map[k := {d}] != map[k := {c}]
  {
    assert map[k := {d}][k] == {d} && map[k := {c}][k] == {c};
    assert d in {d} && d !in {c};
  }

  /**
   An event is firm if and only if no copy of it, arriving before or after it, can change the report:
   no object with two members in the value that names its designation, or no designation touched.
   */
  lemma FirmExactly(x: Setting, now: int, claim: Claim, e: Event)
    requires SealsFaithful(x) && ShowsFaithful(x) && Indifferent(claim)
    requires RealEvent(e) && RowOf(x, now, e).Accepted?
    ensures Firm(e) <==> forall f | CopyOf(e, f) && f.time == e.time && RealEvent(f) ::
              SameOutcome(Replay(x, now, claim, [], [e, f]), Replay(x, now, claim, [], [f, e]))
  {
    hide SealsFaithful, ShowsFaithful, Indifferent, RowOf, Replay, CopyOf, DesignationOf, RealEvent;
    if Firm(e) {
      forall f | CopyOf(e, f) && f.time == e.time && RealEvent(f)
        ensures SameOutcome(Replay(x, now, claim, [], [e, f]), Replay(x, now, claim, [], [f, e]))
      {
        FirmPair(x, e, f);
        assert multiset([e, f]) == multiset([f, e]);
        ReplayIgnoresOrder(x, now, claim, [], [e, f], [f, e]);
      }
    } else {
      var f := OtherCopy(x, e);
      TwoReports(x, now, claim, e, f);
    }
  }

  lemma FirmPair(x: Setting, e: Event, f: Event)
    requires CopyOf(e, f) && f.time == e.time && RealEvent(e) && RealEvent(f) && Firm(e)
    ensures Uniform(x, [e, f])
  {
    hide DesignationOf, RealEvent, Below;
    CopyBack(e, f);
    if Touching(e.kind) { FirmCopies(x, e, f); }
  }

  const MEMBERS: seq<Field> := [Field("a", Integer(1)), Field("b", Integer(2))]
  const TURNED: seq<Field> := [Field("b", Integer(2)), Field("a", Integer(1))]

  /** One designation object written in two orders: two reports, depending on which copy arrives first. */
  lemma ObjectDesignation(x: Setting, now: int, claim: Claim, e: Event)
    requires ShowsFaithful(x) && RowOf(x, now, e).Accepted? && e.kind.DesignationAdded?
    requires e.payload == map["designation_id" := Fields(MEMBERS)]
    ensures var f := e.(payload := map["designation_id" := Fields(TURNED)]);
      && CopyOf(e, f)
      && Replay(x, now, claim, [], [e, f]).Accepted? && Replay(x, now, claim, [], [f, e]).Accepted?
      && Replay(x, now, claim, [], [e, f]).value.active == map[e.stream := {x.show(Fields(MEMBERS))}]
      && Replay(x, now, claim, [], [f, e]).value.active == map[e.stream := {x.show(Fields(TURNED))}]
      && x.show(Fields(MEMBERS)) != x.show(Fields(TURNED))
  {
    hide RowOf, Replay;
    var f := e.(payload := map["designation_id" := Fields(TURNED)]);
    assert MEMBERS == [MEMBERS[0], MEMBERS[1]] + [] && TURNED == [MEMBERS[1], MEMBERS[0]] + [];
    assert Canonical(Fields(MEMBERS)) == Canonical(Fields(TURNED));
    PayloadReordered(e.payload, "designation_id", Fields(TURNED));
    assert e.payload["designation_id" := Fields(TURNED)] == f.payload;
    assert MEMBERS[0] != TURNED[0];
    CopyBack(e, f);
    CopyRow(x, now, e, f);
    FirstCopyReported(x, now, claim, e, f);
    FirstCopyReported(x, now, claim, f, e);
  }
}
