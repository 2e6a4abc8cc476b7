/**
 What a check and a registration do to one assessment, read off its row, the evidence and the reading: which call
 is refused and why, which changes are reported and stored, and what a new row holds.
 */
module AssessmentRows {
  import opened Prelude
  import opened Ledger

  // ----------------------------------------------------------------------- changes

  function LapseAt(c: Codec, e: Evidence, v: string, s: string, deps: seq<Dependency>, now: Time, i: nat)
    : Option<Reason>
    requires i < |deps|
  {
    LapseIn(c, e, v, s, deps[i], now)
  }

  /** `at` lists the dependencies that no longer hold, and `changes` their payloads and reasons. */
  predicate Lists(c: Codec, e: Evidence, v: string, s: string, deps: seq<Dependency>, now: Time, changes: seq<Change>,
                  at: seq<nat>)
  {
    && Increasing(at) && |changes| == |at|
    && (forall j | 0 <= j < |at| ::
          && at[j] < |deps| && LapseAt(c, e, v, s, deps, now, at[j]).Some?
          && changes[j] == Change(Some(deps[at[j]].payload), LapseAt(c, e, v, s, deps, now, at[j]).value))
    && forall i: nat | i < |deps| && LapseAt(c, e, v, s, deps, now, i).Some? :: i in at
  }

  /** The changes among dependencies are those that no longer hold, in order, each with its reason. */
  lemma {:induction false} ChangesListed(c: Codec, e: Evidence, v: string, s: string, deps: seq<Dependency>, now: Time)
    returns (at: seq<nat>)
    ensures Lists(c, e, v, s, deps, now, DependencyChanges(c, e, v, s, deps, now), at)
  {
    hide LapseIn;
    if deps == [] {
      at := [];
    } else {
      var n := |deps| - 1;
      at := ChangesListed(c, e, v, s, deps[..n], now);
      var changes := DependencyChanges(c, e, v, s, deps[..n], now);
      hide DependencyChanges;
      ListsFurther(c, e, v, s, deps, now, changes, at);
      assert DependencyChanges(c, e, v, s, deps, now)
             == changes + (match LapseIn(c, e, v, s, deps[n], now)
                           case None => []
                           case Some(reason) => [Change(Some(deps[n].payload), reason)]) by {
        ChangesGrow(c, e, v, s, deps, now);
      }
      if LapseIn(c, e, v, s, deps[n], now).Some? { at := at + [n]; }
    }
  }

  lemma ChangesGrow(c: Codec, e: Evidence, v: string, s: string, deps: seq<Dependency>, now: Time)
    requires deps != []
    ensures var n := |deps| - 1;
      DependencyChanges(c, e, v, s, deps, now)
      == DependencyChanges(c, e, v, s, deps[..n], now)
         + match LapseIn(c, e, v, s, deps[n], now)
           case None => []
           case Some(reason) => [Change(Some(deps[n].payload), reason)]
  {
    hide LapseIn;
  }

  lemma ListsFurther(c: Codec, e: Evidence, v: string, s: string, deps: seq<Dependency>, now: Time,
                     changes: seq<Change>, at: seq<nat>)
    requires deps != [] && Lists(c, e, v, s, deps[..|deps| - 1], now, changes, at)
    ensures var n := |deps| - 1; var lapse := LapseIn(c, e, v, s, deps[n], now);
      if lapse.Some? then Lists(c, e, v, s, deps, now, changes + [Change(Some(deps[n].payload), lapse.value)], at + [n])
      else Lists(c, e, v, s, deps, now, changes, at)
  {
    hide LapseIn;
    var n := |deps| - 1;
    assert forall i: nat | i < n :: LapseAt(c, e, v, s, deps[..n], now, i) == LapseAt(c, e, v, s, deps, now, i);
    assert LapseAt(c, e, v, s, deps, now, n) == LapseIn(c, e, v, s, deps[n], now);
  }

  /** Some dependency of the assessment no longer holds. */
  predicate SomeLapsed(c: Codec, e: Evidence, k: Key, a: Assessment, now: Time) {
    exists i :: 0 <= i < |a.deps| && LapseIn(c, e, k.vertical, k.scope, a.deps[i], now).Some?
  }

  /** Some dependency on the payload no longer holds for this reason. */
  predicate LapsedFor(c: Codec, e: Evidence, k: Key, a: Assessment, now: Time, d: Digest, r: Reason) {
    exists i :: && 0 <= i < |a.deps| && a.deps[i].payload == d
                && LapseIn(c, e, k.vertical, k.scope, a.deps[i], now) == Some(r)
  }

  lemma LapsedExactly(c: Codec, e: Evidence, k: Key, a: Assessment, now: Time)
    ensures var changes := DependencyChanges(c, e, k.vertical, k.scope, a.deps, now);
      && (changes != [] <==> SomeLapsed(c, e, k, a, now))
      && (forall x | x in changes :: x.payload.Some?)
      && forall d, r :: Change(Some(d), r) in changes <==> LapsedFor(c, e, k, a, now, d, r)
  {
    hide LapseIn, DependencyChanges;
    var changes := DependencyChanges(c, e, k.vertical, k.scope, a.deps, now);
    var at := ChangesListed(c, e, k.vertical, k.scope, a.deps, now);
    forall i: nat | i < |a.deps| && LapseIn(c, e, k.vertical, k.scope, a.deps[i], now).Some?
      ensures Change(Some(a.deps[i].payload), LapseIn(c, e, k.vertical, k.scope, a.deps[i], now).value) in changes
    {
      assert LapseAt(c, e, k.vertical, k.scope, a.deps, now, i).Some?;
      var j :| 0 <= j < |at| && at[j] == i;
      assert changes[j] in changes;
    }
    forall x | x in changes
      ensures x.payload.Some?
      ensures LapsedFor(c, e, k, a, now, x.payload.value, x.reason)
    {
      var j :| 0 <= j < |changes| && changes[j] == x;
      assert at[j] in at;
    }
  }

  // ------------------------------------------------------------------------ checks

  /** Resolving the recorded payloads again under the registry gives another snapshot. */
  predicate ResolvesElsewise(c: Codec, e: Evidence, k: Key, a: Assessment, now: Time, connectors: Option<Registry>) {
    connectors.Some?
    && c.snapshotId(Resolve(c, e, k.vertical, k.scope, Payloads(a.deps), connectors.value, now, 128_000))
       != a.snapshotId
  }

  /** What a standing row is found to say: its lapsed dependencies, a clock gone back, or another snapshot. */
  lemma FoundExactly(c: Codec, e: Evidence, k: Key, a: Assessment, now: Time, connectors: Option<Registry>)
    ensures var found := Findings(c, e, k, a, now, connectors);
      var lapsed, back := SomeLapsed(c, e, k, a, now), now < a.lastCheckedAt;
      && (found == [] <==> !lapsed && !back && !ResolvesElsewise(c, e, k, a, now, connectors))
      && (Change(None, AssessmentClockRegressed) in found <==> back)
      && (Change(None, EvidenceAdmissionChanged) in found
          <==> !lapsed && !back && ResolvesElsewise(c, e, k, a, now, connectors))
      && (forall d, r :: Change(Some(d), r) in found <==> LapsedFor(c, e, k, a, now, d, r))
  {
    LapsedExactly(c, e, k, a, now);
    hide LapseIn, DependencyChanges, Resolve, SomeLapsed, LapsedFor;
    var changes := DependencyChanges(c, e, k.vertical, k.scope, a.deps, now);
    assert forall r :: Change(None, r) !in changes;
  }

  lemma LocalExactly(c: Codec, e: Evidence, k: Key, a: Assessment, now: Time)
    ensures LocalFindings(c, e, k, a, now) == [] <==> !SomeLapsed(c, e, k, a, now) && now >= a.lastCheckedAt
  {
    hide LapseIn, DependencyChanges, SomeLapsed;
    LapsedExactly(c, e, k, a, now);
  }

  /**
   A check fails on a standing row that cannot be read, and then changes nothing. Otherwise it reports what it
   stores: the reasons there were, or what it finds; CURRENT says that there are none. The last check time is the
   later of the two.
   */
  lemma CheckExactly(c: Codec, db: Db, k: Key, now: Time, connectors: Option<Registry>)
    requires k in db.assessments
    ensures var a := db.assessments[k];
      var (after, outcome) := Check(c, db, k, now, connectors);
      var unreadable := !a.invalidated
        && (|a.deps| == 0 || (&& connectors.Some? && |a.deps| > 64
                              && !SomeLapsed(c, db.evidence, k, a, now) && now >= a.lastCheckedAt));
      && (unreadable ==> outcome == Failed(StoredRowMalformed) && after == db)
      && (!unreadable ==>
            var changes := if a.invalidated then a.reasons else Findings(c, db.evidence, k, a, now, connectors);
            && outcome == Status(a.kind, a.snapshotId, changes == [], changes, now)
            && after == Db(db.evidence, db.assessments[k := Assessment(
                          a.kind, a.snapshotId, a.deps, a.assessedAt,
                          if a.lastCheckedAt < now then now else a.lastCheckedAt, changes != [], changes)]))
  {
    hide LapseIn, LocalFindings, Findings, SomeLapsed;
    LocalExactly(c, db.evidence, k, db.assessments[k], now);
  }

  /** A status call is refused for a bad scope or reading; a row that is not there is reported as such. */
  lemma StatusExactly(c: Codec, db: Db, k: Key, r: Reading, connectors: Registry)
    ensures var taken := 1 <= |k.vertical| <= 64 && 1 <= |k.scope| <= 256;
      CheckStatus(c, db, k, r, connectors)
      == if !taken then (db, Failed(ScopeInvalid))
         else if r == Broken || r.now < 0 then (db, Failed(ClockUnavailable))
         else if k !in db.assessments then (db, NoAssessment)
         else Check(c, db, k, r.now, Some(connectors))
  {
    hide Unreadable, Checked;
  }

  // ----------------------------------------------------------------- registrations

  /** The snapshot is a complete one of this session, of at least one payload, in ascending order. */
  predicate Fits(c: Codec, k: Key, snap: Snapshot) {
    && snap.vertical == k.vertical && snap.scopeBinding == c.scopeId(k.vertical, k.scope)
    && (forall i, j | 0 <= i < j < |snap.requested| :: snap.requested[i] < snap.requested[j])
    && snap.state == Complete && |snap.requested| > 0
  }

  lemma FitsExactly(c: Codec, k: Key, snap: Snapshot)
    ensures Registrable(c, k, snap) <==> Fits(c, k, snap)
  {
    var xs := snap.requested;
    if Increasing(xs) { AscendingUnique(xs); }
    if Registrable(c, k, snap) { assert Increasing(xs); }
  }

  /** How many assessments the session has. */
  function Registered(db: Db, k: Key): nat {
    |set j | j in db.assessments && j.vertical == k.vertical && j.scope == k.scope|
  }

  /** Why a registration is refused, in this order; a session holds at most 10 000 assessments. */
  lemma RefusedExactly(c: Codec, db: Db, k: Key, kind: Kind, snap: Snapshot, r: Reading)
    ensures RegistrationError(c, db, k, kind, snap, r)
      == if !(1 <= |k.vertical| <= 64 && 1 <= |k.scope| <= 256) then Some(ScopeInvalid)
         else if !Fits(c, k, snap) then Some(NotRegistrable)
         else if r == Broken || r.now < 0 then Some(ClockUnavailable)
         else if k in db.assessments
                 && (db.assessments[k].snapshotId != c.snapshotId(snap) || db.assessments[k].kind != kind)
           then Some(IdentityConflict)
         else if k !in db.assessments && Registered(db, k) >= 10_000 then Some(CapacityReached)
         else None
  {
    hide Registrable, Fits;
    FitsExactly(c, k, snap);
    assert Registered(db, k) == |InScope(db, k.vertical, k.scope)|;
  }

  /**
   A new assessment records what each record of its snapshot says, the reading, and at once what of it no longer
   holds; a snapshot without records is refused. Registering it again is a check.
   */
  lemma RegisteredExactly(c: Codec, db: Db, k: Key, kind: Kind, snap: Snapshot, r: Reading)
    requires RegistrationError(c, db, k, kind, snap, r) == None
    ensures r.At?
    ensures k in db.assessments ==> Register(c, db, k, kind, snap, r) == Check(c, db, k, r.now, None)
    ensures k !in db.assessments && snap.records == [] ==>
      Register(c, db, k, kind, snap, r) == (db, Failed(StoredRowMalformed))
    ensures k !in db.assessments && snap.records != [] ==>
      var (after, outcome) := Register(c, db, k, kind, snap, r);
      && k in after.assessments && after.evidence == db.evidence
      && after.assessments == db.assessments[k := after.assessments[k]]
      && var a := after.assessments[k];
      && a.kind == kind && a.snapshotId == c.snapshotId(snap) && a.assessedAt == a.lastCheckedAt == r.now
      && |a.deps| == |snap.records|
      && (forall i | 0 <= i < |a.deps| ::
            var x := snap.records[i];
            a.deps[i] == Dependency(x.payload, x.receiptId, x.summaryId, x.observedAt, x.expiresAt))
      && (a.reasons == [] <==> !SomeLapsed(c, db.evidence, k, a, r.now)) && (a.invalidated <==> a.reasons != [])
      && outcome == Status(kind, c.snapshotId(snap), a.reasons == [], a.reasons, r.now)
  {
    if k !in db.assessments {
      var inserted := Inserted(c, db, k, kind, snap, r.now);
      var a := inserted.assessments[k];
      hide LapseIn, Findings, SomeLapsed, Check, RegistrationError, DependencyChanges;
      CheckExactly(c, inserted, k, r.now, None);
      FoundExactly(c, db.evidence, k, a, r.now, None);
      SameLapses(c, db.evidence, k, a, a.(reasons := Findings(c, db.evidence, k, a, r.now, None)), r.now);
    } else {
      hide Check;
    }
  }

  lemma SameLapses(c: Codec, e: Evidence, k: Key, a: Assessment, b: Assessment, now: Time)
    requires a.deps == b.deps
    ensures SomeLapsed(c, e, k, a, now) <==> SomeLapsed(c, e, k, b, now)
  {
  }
}
