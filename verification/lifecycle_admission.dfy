/**
 Admission of events looks at the set of events only: which sequences are admitted, what is kept of
 them, and why neither their order nor repetitions matter.
 */
module LifecycleAdmission {
  import opened Prelude
  import opened Chronology
  import opened Lifecycle
  import opened Payloads

  /** The same event but for the spelling of its instant and the order of members within its payload. */
  predicate CopyOf(a: Event, b: Event) { Tell(a) == Tell(b).(time := a.time) }

  /** Equal content digests come from contents that are equal up to the order of object members. */
  ghost predicate SealsFaithful(x: Setting) {
    forall t, kind, revision, state, payload, t', kind', revision', state', payload' ::
      x.seal(t, kind, revision, state, payload) == x.seal(t', kind', revision', state', payload')
      && x.seal(t, kind, revision, state, payload).Some?
      ==> t == t' && kind == kind' && revision == revision' && state == state' && payload == payload'
  }

  lemma RowsAlike(x: Setting, now: int, a: Event, b: Event)
    requires SealsFaithful(x)
    requires RowOf(x, now, a).Accepted? && RowOf(x, now, b).Accepted?
    requires IdentityOf(a) == IdentityOf(b) && RowOf(x, now, a).value.seal == RowOf(x, now, b).value.seal
    ensures RowOf(x, now, a).value.instant == RowOf(x, now, b).value.instant
    ensures CopyOf(a, b)
  {
  }

  /** The event alone can be admitted. */
  predicate Admissible(x: Setting, now: int, base: Base, e: Event) {
    var r := RowOf(x, now, e);
    r.Accepted? && (e.stream in base.instants ==> base.instants[e.stream] < r.value.instant)
  }

  /** The events are different ones, or two copies of one event. */
  predicate Compatible(x: Setting, now: int, a: Event, b: Event) {
    var r, s := RowOf(x, now, a), RowOf(x, now, b);
    r.Accepted? && s.Accepted? && IdentityOf(a) == IdentityOf(b) ==> r.value.seal == s.value.seal
  }

  predicate AllAdmissible(x: Setting, now: int, base: Base, events: seq<Event>) {
    forall e | e in events :: Admissible(x, now, base, e)
  }

  predicate AllCompatible(x: Setting, now: int, events: seq<Event>) {
    forall a, b | a in events && b in events :: Compatible(x, now, a, b)
  }

  /** `row` stands for the copies of `i`: it is the copy with the least spelling of their instant. */
  predicate Represents(x: Setting, now: int, events: seq<Event>, i: Identity, row: Row) {
    && row.event in events && IdentityOf(row.event) == i && RowOf(x, now, row.event) == Accepted(row)
    && forall e | e in events && IdentityOf(e) == i :: !Below(e.time, row.event.time)
  }

  predicate KeptRight(x: Setting, now: int, events: seq<Event>, kept: map<Identity, Row>) {
    && (forall e | e in events :: IdentityOf(e) in kept)
    && forall i | i in kept :: Represents(x, now, events, i, kept[i])
  }

  predicate SkewRight(x: Setting, now: int, base: Base, events: seq<Event>, skew: int) {
    && base.skew <= skew
    && (forall e | e in events && RowOf(x, now, e).Accepted? :: Ahead(now, RowOf(x, now, e).value.instant) <= skew)
    && (skew == base.skew
        || exists e :: e in events && RowOf(x, now, e).Accepted? && Ahead(now, RowOf(x, now, e).value.instant) == skew)
  }

  lemma KeptStays(x: Setting, now: int, events: seq<Event>, kept: map<Identity, Row>, e: Event, row: Row)
    requires KeptRight(x, now, events, kept) && RowOf(x, now, e) == Accepted(row) && row.event == e
    ensures IdentityOf(e) !in kept ==> KeptRight(x, now, events + [e], kept[IdentityOf(e) := row])
    ensures IdentityOf(e) in kept ==>
      KeptRight(x, now, events + [e],
                if Below(e.time, kept[IdentityOf(e)].event.time) then kept[IdentityOf(e) := row] else kept)
  {
    hide RowOf, Below;
    var i := IdentityOf(e);
    BelowTotal(e.time, e.time);
    assert forall d :: d in events + [e] <==> d in events || d == e;
    var next := if i in kept && !Below(e.time, kept[i].event.time) then kept else kept[i := row];
    forall j | j in next ensures Represents(x, now, events + [e], j, next[j]) {
      if j != i {
        assert Represents(x, now, events, j, kept[j]);
      } else if i in kept {
        assert Represents(x, now, events, i, kept[i]);
        var spelt := kept[i].event.time;
        if Below(e.time, spelt) {
          forall d | d in events && IdentityOf(d) == i ensures !Below(d.time, e.time) {
            if Below(d.time, e.time) { BelowTransitive(d.time, e.time, spelt); }
          }
        }
      }
    }
  }

  lemma {:induction false} AdmissionSound(x: Setting, now: int, base: Base, events: seq<Event>)
    requires SealsFaithful(x) && AdmitEvents(x, now, base, events).Accepted?
    ensures AllAdmissible(x, now, base, events) && AllCompatible(x, now, events)
    ensures var intake := AdmitEvents(x, now, base, events).value;
      KeptRight(x, now, events, intake.kept) && SkewRight(x, now, base, events, intake.skew)
  {
    if events != [] {
      var n := |events| - 1;
      var before, e := events[..n], events[n];
      assert events == before + [e];
      AdmissionSound(x, now, base, before);
      var intake := AdmitEvents(x, now, base, before).value;
      var row := RowOf(x, now, e).value;
      KeptStays(x, now, before, intake.kept, e, row);
      AdmissionStep(x, now, base, before, intake, e, row);
    }
  }

  lemma AdmissionStep(x: Setting, now: int, base: Base, before: seq<Event>, intake: Intake, e: Event, row: Row)
    requires SealsFaithful(x) && RowOf(x, now, e) == Accepted(row)
    requires AllAdmissible(x, now, base, before) && AllCompatible(x, now, before)
    requires KeptRight(x, now, before, intake.kept) && SkewRight(x, now, base, before, intake.skew)
    requires AddEvent(x, now, base, intake, e).Accepted?
    ensures AllAdmissible(x, now, base, before + [e]) && AllCompatible(x, now, before + [e])
    ensures SkewRight(x, now, base, before + [e], AddEvent(x, now, base, intake, e).value.skew)
  {
    hide RowOf, SealsFaithful, Below;
    var i := IdentityOf(e);
    if i in intake.kept {
      assert Represents(x, now, before, i, intake.kept[i]);
      var kept := intake.kept[i].event;
      RowsAlike(x, now, e, kept);
      assert Admissible(x, now, base, kept);
      forall d | d in before ensures Compatible(x, now, e, d) { assert Compatible(x, now, kept, d); }
    }
    assert forall d | d in before + [e] :: d in before || d == e;
    forall a, b | a in before + [e] && b in before + [e] ensures Compatible(x, now, a, b) {
      if a in before && b in before { assert Compatible(x, now, a, b); }
      else if a in before { assert Compatible(x, now, e, a); }
      else if b in before { assert Compatible(x, now, e, b); }
    }
    var skew := AddEvent(x, now, base, intake, e).value.skew;
    if skew == Ahead(now, row.instant) {
      assert e in before + [e];
    }
  }

  /** Exactly the sequences of admissible events without conflicting copies are admitted. */
  lemma {:induction false} AdmittedExactly(x: Setting, now: int, base: Base, events: seq<Event>)
    requires SealsFaithful(x)
    ensures AdmitEvents(x, now, base, events).Accepted?
            <==> AllAdmissible(x, now, base, events) && AllCompatible(x, now, events)
  {
    if !AllAdmissible(x, now, base, events) || !AllCompatible(x, now, events) {
      if AdmitEvents(x, now, base, events).Accepted? { AdmissionSound(x, now, base, events); }
    } else if events != [] {
      hide SealsFaithful, RowOf, Below;
      var n := |events| - 1;
      var before, e := events[..n], events[n];
      assert events == before + [e];
      assert forall d | d in before :: d in events;
      assert e in events && Admissible(x, now, base, e);
      AdmittedExactly(x, now, base, before);
      AdmissionSound(x, now, base, before);
      var kept := AdmitEvents(x, now, base, before).value.kept;
      var i := IdentityOf(e);
      if i in kept {
        assert Represents(x, now, before, i, kept[i]);
        assert Compatible(x, now, e, kept[i].event);
      }
    }
  }

  /** The rows tell the same event; the order of members within their payloads may differ. */
  predicate AlikeRows(r: Row, s: Row) {
    Tell(r.event) == Tell(s.event) && r.instant == s.instant && r.seal == s.seal
  }

  predicate KeptAlike(kept: map<Identity, Row>, other: map<Identity, Row>) {
    kept.Keys == other.Keys && forall i | i in kept :: AlikeRows(kept[i], other[i])
  }

  lemma KeptDetermined(x: Setting, now: int, a: seq<Event>, b: seq<Event>,
                       kept: map<Identity, Row>, other: map<Identity, Row>)
    requires SealsFaithful(x) && AllCompatible(x, now, a)
    requires forall e :: e in a <==> e in b
    requires KeptRight(x, now, a, kept) && KeptRight(x, now, b, other)
    ensures KeptAlike(kept, other)
  {
    hide SealsFaithful, RowOf, Below, CanonicalPayload;
    forall i | i in kept ensures i in other { assert Represents(x, now, a, i, kept[i]); }
    forall i | i in other ensures i in kept && AlikeRows(kept[i], other[i]) {
      assert Represents(x, now, b, i, other[i]);
      assert i in kept && Represents(x, now, a, i, kept[i]);
      var e, d := kept[i].event, other[i].event;
      assert Compatible(x, now, e, d);
      RowsAlike(x, now, e, d);
      RowCarries(x, now, e);
      RowCarries(x, now, d);
      BelowTotal(e.time, d.time);
    }
  }

  lemma RowCarries(x: Setting, now: int, e: Event)
    requires RowOf(x, now, e).Accepted?
    ensures RowOf(x, now, e).value.event == e
  {
  }

  /** Two sequences of the same events, whatever their order and repetitions, are kept alike. */
  lemma AdmissionIgnoresOrder(x: Setting, now: int, base: Base, a: seq<Event>, b: seq<Event>)
    requires SealsFaithful(x)
    requires forall e :: e in a <==> e in b
    ensures AdmitEvents(x, now, base, a).Accepted? <==> AdmitEvents(x, now, base, b).Accepted?
    ensures AdmitEvents(x, now, base, a).Accepted? ==>
      && KeptAlike(AdmitEvents(x, now, base, a).value.kept, AdmitEvents(x, now, base, b).value.kept)
      && AdmitEvents(x, now, base, a).value.skew == AdmitEvents(x, now, base, b).value.skew
  {
    hide SealsFaithful, RowOf, Admissible, Compatible, AdmitEvents, KeptAlike;
    AdmittedExactly(x, now, base, a);
    AdmittedExactly(x, now, base, b);
    if AdmitEvents(x, now, base, a).Accepted? {
      AdmissionSound(x, now, base, a);
      AdmissionSound(x, now, base, b);
      KeptDetermined(x, now, a, b, AdmitEvents(x, now, base, a).value.kept, AdmitEvents(x, now, base, b).value.kept);
    }
  }

  // ------------------------------------------------------------- the duplicates

  function Times(events: seq<Event>, id: string): nat {
    if events == [] then 0
    else Times(events[..|events| - 1], id) + (if events[|events| - 1].id == id then 1 else 0)
  }

  function Named(kept: map<Identity, Row>, id: string): set<Identity> {
    set i | i in kept && i.id == id
  }

  lemma NamedUpdated(kept: map<Identity, Row>, i: Identity, row: Row, id: string)
    ensures |Named(kept[i := row], id)| == |Named(kept, id)| + (if i !in kept && i.id == id then 1 else 0)
  {
    assert Named(kept[i := row], id) == Named(kept, id) + (if i.id == id then {i} else {});
  }

  /** Every copy of an event beyond the first is reported once under its id. */
  lemma {:induction false} DuplicatesCounted(x: Setting, now: int, base: Base, events: seq<Event>, id: string)
    requires AdmitEvents(x, now, base, events).Accepted?
    ensures var intake := AdmitEvents(x, now, base, events).value;
      multiset(intake.duplicates)[id] + |Named(intake.kept, id)| == Times(events, id)
  {
    hide RowOf, Below, Ahead, Named;
    if events == [] {
      NoneNamed(id);
    } else {
      var n := |events| - 1;
      var e := events[n];
      DuplicatesCounted(x, now, base, events[..n], id);
      var intake := AdmitEvents(x, now, base, events[..n]).value;
      NamedUpdated(intake.kept, IdentityOf(e), RowOf(x, now, e).value, id);
    }
  }

  lemma NoneNamed(id: string)
    ensures Named(map[], id) == {}
  {
  }

  lemma {:induction false} TimesConcat(a: seq<Event>, b: seq<Event>, id: string)
    ensures Times(a + b, id) == Times(a, id) + Times(b, id)
  {
    if b == [] {
      assert a + b == a;
    } else {
      var n := |b| - 1;
      assert (a + b)[..|a + b| - 1] == a + b[..n];
      TimesConcat(a, b[..n], id);
    }
  }

  lemma {:induction false} TimesPermuted(a: seq<Event>, b: seq<Event>, id: string)
    requires multiset(a) == multiset(b)
    ensures Times(a, id) == Times(b, id)
  {
    hide Times;
    assert |a| == |multiset(a)| == |multiset(b)| == |b|;
    if a == [] {
      assert b == [];
    } else {
      var n := |a| - 1;
      var e, front := a[n], a[..n];
      assert a == front + [e];
      assert e in multiset(a);
      var j :| 0 <= j < |b| && b[j] == e;
      var p, q := b[..j], b[j + 1..];
      WithoutOne(front, p, q, e, b);
      TimesOfParts(front, p, q, e, id);
      TimesPermuted(front, p + q, id);
    }
  }

  lemma WithoutOne(front: seq<Event>, p: seq<Event>, q: seq<Event>, e: Event, b: seq<Event>)
    requires b == p + [e] + q && multiset(front + [e]) == multiset(b)
    ensures multiset(p + q) == multiset(front)
  {
    assert multiset(b) == multiset(p) + multiset{e} + multiset(q);
    assert multiset(front + [e]) == multiset(front) + multiset{e};
    assert multiset(p + q) == multiset(p) + multiset(q);
    assert multiset(front) == multiset(front + [e]) - multiset{e};
  }

  lemma TimesOfParts(front: seq<Event>, p: seq<Event>, q: seq<Event>, e: Event, id: string)
    ensures Times(front + [e], id) - Times(front, id) == Times(p + [e] + q, id) - Times(p + q, id)
  {
    hide Times;
    TimesConcat(front, [e], id);
    TimesConcat(p + [e], q, id);
    TimesConcat(p, [e], id);
    TimesConcat(p, q, id);
  }

  lemma {:induction false} BaseSkewBounded(x: Setting, now: int, raws: seq<RawSnapshot>)
    requires AdmitSnapshots(x, now, raws).Accepted?
    ensures 0 <= AdmitSnapshots(x, now, raws).value.skew <= 300
  {
    hide Unique, TakeSnapshot;
    if raws != [] { BaseSkewBounded(x, now, raws[..|raws| - 1]); }
  }

  lemma {:induction false} IntakeSkewBounded(x: Setting, now: int, base: Base, events: seq<Event>)
    requires 0 <= base.skew <= 300 && AdmitEvents(x, now, base, events).Accepted?
    ensures 0 <= AdmitEvents(x, now, base, events).value.skew <= 300
  {
    hide Below;
    if events != [] { IntakeSkewBounded(x, now, base, events[..|events| - 1]); }
  }

  /** No accepted replay reports more than the allowed skew. */
  lemma SkewBounded(x: Setting, now: int, claim: Claim, raws: seq<RawSnapshot>, incoming: seq<Event>)
    requires Replay(x, now, claim, raws, incoming).Accepted?
    ensures 0 <= Replay(x, now, claim, raws, incoming).value.skew <= 300
  {
    hide AdmitSnapshots, AdmitEvents, InOrder, Fold;
    BaseSkewBounded(x, now, raws);
    IntakeSkewBounded(x, now, AdmitSnapshots(x, now, raws).value, incoming);
  }
}
