/**
 The observation store as the program keeps it: an object holding the committed database, whose
 methods work on a private copy inside a transaction and commit it as a whole or not at all. Each
 method is proved to have the effect and the result of the ledger operation of the same name.
 */
module Store {
  import opened Prelude
  import opened Ledger
  import opened DependencyText
  import Text

  /** What looking up rows on a connection of its own gives: the rows, an error, or no list of them. */
  datatype Lookup = Answered | Failing | Malformed

  /** Evidence resolution, whatever the lookup gives. */
  function Resolved(c: Codec, e: Evidence, v: string, s: string, digests: seq<Digest>, connectors: Registry,
                    now: Time, budget: nat, lookup: Lookup): Snapshot
  {
    var requested := Ascending(Elements(digests));
    match lookup
    case Answered => Resolve(c, e, v, s, digests, connectors, now, budget)
    case Failing => Snapshot(v, c.scopeId(v, s), requested, [], Unavailable, {StoreUnavailable})
    case Malformed => Snapshot(v, c.scopeId(v, s), requested, [], Unavailable, {StoreResultInvalid})
  }

  /** The check finds nothing by itself and resolves the payloads again. */
  predicate ResolvesAgain(c: Codec, db: Db, k: Key, now: Time, connectors: Option<Registry>) {
    && k in db.assessments && connectors.Some?
    && var a := db.assessments[k];
    !a.invalidated && 1 <= |a.deps| <= MAX_REFERENCES && LocalFindings(c, db.evidence, k, a, now) == []
  }

  class ObservationStore {
    const c: Codec
    const render: Renderer
    const unavailable: bool
    var db: Db

    ghost predicate Valid()
      reads this
    {
      Plain(render)
    }

    constructor (c: Codec, render: Renderer, unavailable: bool)
      requires Plain(render)
      ensures Valid() && db == EMPTY_DB
      ensures this.c == c && this.render == render && this.unavailable == unavailable
    {
      this.c, this.render, this.unavailable := c, render, unavailable;
      this.db := EMPTY_DB;
    }

    /** The recorded dependencies, one by one, against the evidence tables of a transaction. */
    method ChangesOf(e: Evidence, v: string, s: string, deps: seq<Dependency>, now: Time) returns (changes: seq<Change>)
      ensures changes == DependencyChanges(c, e, v, s, deps, now)
    {
      changes := [];
      for i := 0 to |deps|
        invariant changes == DependencyChanges(c, e, v, s, deps[..i], now)
      {
        assert deps[..i + 1][..i] == deps[..i];
        var reason := LapseIn(c, e, v, s, deps[i], now);
        if reason.Some? {
          changes := changes + [Change(Some(deps[i].payload), reason.value)];
        }
      }
      assert deps[..|deps|] == deps;
    }

    /** The rows the eager pass looks at: in the session, standing, with the quoted payload in their stored text. */
    function Preselected(rows: map<Key, Assessment>, v: string, s: string, d: Digest): set<Key> {
      set k | k in rows && k.vertical == v && k.scope == s && !rows[k].invalidated
              && Text.Occurs(ListText(render, rows[k].deps), Needle(d))
    }

    /** Preselection misses no dependent row and selects no other. */
    lemma PreselectsDependents(rows: map<Key, Assessment>, v: string, s: string, d: Digest)
      requires Valid()
      ensures forall k | k in rows ::
                k in Preselected(rows, v, s, d) <==>
                k.vertical == v && k.scope == s && !rows[k].invalidated && Mentions(rows[k].deps, d)
    {
      hide ListText, Needle, Text.Occurs, Mentions;
      forall k | k in rows
        ensures Text.Occurs(ListText(render, rows[k].deps), Needle(d)) <==> Mentions(rows[k].deps, d)
      {
        FilterFindsDependents(render, rows[k].deps, d);
      }
    }

    lemma SelectedFromRows(rows: map<Key, Assessment>, v: string, s: string, d: Digest)
      ensures Preselected(rows, v, s, d) <= rows.Keys
    {
    }

    /** What is not preselected the eager pass leaves alone. */
    lemma SweptElsewhere(e: Evidence, rows: map<Key, Assessment>, v: string, s: string, d: Digest)
      requires Valid()
      ensures forall k | k in rows && k !in Preselected(rows, v, s, d) :: Swept(c, e, k, rows[k], v, s, d) == rows[k]
    {
      hide Preselected, Mentions;
      PreselectsDependents(rows, v, s, d);
    }

    /**
     The eager pass after a write to payload `d`. A preselected row always holds a dependency on the
     payload, so the pass never fails.
     */
    method InvalidateChangedPayload(connection: Db, v: string, s: string, d: Digest) returns (after: Db)
      requires Valid()
      ensures after == Invalidate(c, connection, v, s, d)
    {
      hide Preselected, Mentions, Swept;
      var rows := connection.assessments;
      var todo := Preselected(rows, v, s, d);
      PreselectsDependents(rows, v, s, d);
      SweptElsewhere(connection.evidence, rows, v, s, d);
      SelectedFromRows(rows, v, s, d);
      after := connection;
      while todo != {}
        invariant todo <= rows.Keys
        invariant forall k | k in todo ::
          k.vertical == v && k.scope == s && !rows[k].invalidated && Mentions(rows[k].deps, d)
        invariant after.evidence == connection.evidence && after.assessments.Keys == rows.Keys
        invariant forall k | k in todo :: after.assessments[k] == rows[k]
        invariant forall k | k in rows && k !in todo ::
                    after.assessments[k] == Swept(c, connection.evidence, k, rows[k], v, s, d)
      {
        var k :| k in todo;
        var row := SweepRow(connection.evidence, k, rows[k], v, s, d);
        after := after.(assessments := after.assessments[k := row]);
        todo := todo - {k};
      }
      assert after.assessments == Invalidate(c, connection, v, s, d).assessments;
    }

    /** What the eager pass does to one preselected row. */
    method SweepRow(e: Evidence, k: Key, row: Assessment, v: string, s: string, d: Digest) returns (after: Assessment)
      requires k.vertical == v && k.scope == s && !row.invalidated && Mentions(row.deps, d)
      ensures after == Swept(c, e, k, row, v, s, d)
    {
      var dependencies := Selected(row.deps, d);
      assert dependencies != [];
      var changes := ChangesOf(e, v, s, dependencies, dependencies[0].observedAt);
      after := if changes != [] then row.(invalidated := true, reasons := changes) else row;
    }

    method Put(receipt: Receipt, summary: Summary) returns (outcome: Outcome)
      requires Valid()
      modifies this`db
      ensures Valid()
      ensures unavailable ==> outcome == Failed(StoreDown) && db == old(db)
      ensures !unavailable ==> (db, outcome) == Ledger.Put(c, old(db), receipt, summary)
    {
      if unavailable { return Failed(StoreDown); }
      if c.summaryBytes(summary) > MAX_STORED_SUMMARY_BYTES { return Failed(SummaryTooLarge); }
      var b := receipt.basis;
      var connection :=
        db.(evidence := db.evidence.(observations := db.evidence.observations[receipt.id := Row(b, summary)]));
      connection := InvalidateChangedPayload(connection, b.vertical, b.scope, b.payload);
      db := connection;
      outcome := Done;
    }

    /** Mark the payloads withdrawn one after the other, each with its own eager pass. */
    method WithdrawEach(connection: Db, v: string, s: string, ds: seq<Digest>, now: Time) returns (after: Db)
      requires Valid()
      ensures after == WithdrawAll(c, connection, v, s, ds, now)
    {
      hide Invalidate;
      after := connection;
      for i := 0 to |ds|
        invariant after == WithdrawAll(c, connection, v, s, ds[..i], now)
      {
        assert ds[..i + 1][..i] == ds[..i];
        var k := Key(v, s, ds[i]);
        if k !in after.evidence.withdrawals {
          after := after.(evidence := after.evidence.(withdrawals := after.evidence.withdrawals[k := now]));
        }
        after := InvalidateChangedPayload(after, v, s, ds[i]);
      }
      assert ds[..|ds|] == ds;
    }

    method WithdrawPayloads(v: string, s: string, digests: seq<Digest>, clock: Reading) returns (outcome: Outcome)
      requires Valid()
      modifies this`db
      ensures Valid()
      ensures unavailable && ScopeValid(v, s) && 1 <= |digests| <= MAX_REFERENCES ==>
                outcome == Failed(StoreDown) && db == old(db)
      ensures !unavailable ==> (db, outcome) == Withdraw(c, old(db), v, s, digests, clock)
    {
      hide WithdrawAll, Elements, Held;
      if !ScopeValid(v, s) { return Failed(ScopeInvalid); }
      if !(1 <= |digests| <= MAX_REFERENCES) { return Failed(RequestInvalid); }
      if unavailable { return Failed(StoreDown); }
      var connection := db;
      if !ReadingValid(clock) { return Failed(ClockUnavailable); }
      var ds := Ascending(Elements(digests));
      SameMembers(digests);
      for i := 0 to |ds|
        invariant forall j | 0 <= j < i :: Held(connection.evidence, v, s, ds[j])
      {
        if !Held(connection.evidence, v, s, ds[i]) {
          assert ds[i] in ds;
          return Failed(EvidenceNotFound);
        }
      }
      connection := WithdrawEach(connection, v, s, ds, clock.now);
      db := connection;
      outcome := Done;
    }

    static lemma SameMembers(digests: seq<Digest>)
      ensures forall d :: d in Ascending(Elements(digests)) <==> d in digests
    {
    }

    /** Evidence resolution against the tables of a transaction. */
    method ResolveEvidence(e: Evidence, v: string, s: string, digests: seq<Digest>, connectors: Registry, now: Time,
                           budget: nat, lookup: Lookup) returns (snapshot: Snapshot)
      ensures snapshot == Resolved(c, e, v, s, digests, connectors, now, budget, lookup)
    {
      hide AdmitIn, Ascending, Elements;
      var requested := Ascending(Elements(digests));
      if lookup != Answered {
        var blocker := if lookup == Failing then StoreUnavailable else StoreResultInvalid;
        return Snapshot(v, c.scopeId(v, s), requested, [], Unavailable, {blocker});
      }
      var records: seq<Record>, blockers: set<Blocker> := [], {};
      for i := 0 to |requested|
        invariant Gathered(records, blockers) == Gather(c, e, v, s, requested[..i], connectors, now, budget)
      {
        assert requested[..i + 1][..i] == requested[..i];
        var record := AdmitIn(c, e, v, s, requested[i], connectors, now, budget);
        if record.None? {
          blockers := blockers + {ReferenceUnresolved};
        } else if c.recordsBytes(records + [record.value]) > budget {
          blockers := blockers + {ContextBudgetExceeded};
        } else {
          records := records + [record.value];
        }
      }
      assert requested[..|requested|] == requested;
      if |records| != |requested| {
        blockers := blockers + {ReferenceUnresolved};
      }
      var state := if blockers != {} then Partial else if requested != [] then Complete else Empty;
      snapshot := Snapshot(v, c.scopeId(v, s), requested, records, state, blockers);
    }

    static lemma ResolveAnswers(c: Codec, e: Evidence, k: Key, a: Assessment, connectors: Registry, now: Time)
      ensures Resolve(c, e, k.vertical, k.scope, Payloads(a.deps), connectors, now, DEFAULT_BUDGET).state != Unavailable
    {
    }

    /** One check inside a transaction; a failure leaves the caller to drop its copy. */
    method CheckAssessment(connection: Db, k: Key, now: Time, connectors: Option<Registry>, lookup: Lookup)
      returns (after: Db, outcome: Outcome)
      ensures (after, outcome) ==
        if ResolvesAgain(c, connection, k, now, connectors) && lookup != Answered
        then (connection, Failed(EvidenceUnavailable)) else Check(c, connection, k, now, connectors)
    {
      hide DependencyChanges, Resolve;
      after := connection;
      if k !in connection.assessments { return after, NoAssessment; }
      var row := connection.assessments[k];
      var changes := row.reasons;
      if !row.invalidated {
        if row.deps == [] { return after, Failed(StoredRowMalformed); }
        changes := ChangesOf(connection.evidence, k.vertical, k.scope, row.deps, now);
        assert changes + [] == changes;
        if now < row.lastCheckedAt {
          changes := changes + [Change(None, AssessmentClockRegressed)];
        }
        assert changes == LocalFindings(c, connection.evidence, k, row, now);
        if changes == [] && connectors.Some? {
          if |row.deps| > MAX_REFERENCES { return after, Failed(StoredRowMalformed); }
          var current := ResolveEvidence(connection.evidence, k.vertical, k.scope, Payloads(row.deps),
                                         connectors.value, now, DEFAULT_BUDGET, lookup);
          if current.state == Unavailable {
            assert lookup != Answered by { ResolveAnswers(c, connection.evidence, k, row, connectors.value, now); }
            return after, Failed(EvidenceUnavailable);
          }
          if c.snapshotId(current) != row.snapshotId {
            changes := [Change(None, EvidenceAdmissionChanged)];
          }
        }
        assert changes == Findings(c, connection.evidence, k, row, now, connectors);
      }
      var last := if now >= row.lastCheckedAt then now else row.lastCheckedAt;
      var updated := row.(invalidated := changes != [], reasons := changes, lastCheckedAt := last);
      assert updated == Checked(c, connection.evidence, k, row, now, connectors);
      after := connection.(assessments := connection.assessments[k := updated]);
      outcome := Status(row.kind, row.snapshotId, changes == [], changes, now);
    }

    method RegisterAssessment(k: Key, kind: Kind, snapshot: Snapshot, clock: Reading) returns (outcome: Outcome)
      requires Valid()
      modifies this`db
      ensures Valid()
      ensures unavailable && ScopeValid(k.vertical, k.scope) && Registrable(c, k, snapshot) ==>
                outcome == Failed(StoreDown) && db == old(db)
      ensures !unavailable ==> (db, outcome) == Register(c, old(db), k, kind, snapshot, clock)
    {
      if !ScopeValid(k.vertical, k.scope) { return Failed(ScopeInvalid); }
      if !Registrable(c, k, snapshot) { return Failed(NotRegistrable); }
      if unavailable { return Failed(StoreDown); }
      var connection := db;
      if !ReadingValid(clock) { return Failed(ClockUnavailable); }
      if k in connection.assessments {
        var existing := connection.assessments[k];
        if existing.snapshotId != c.snapshotId(snapshot) || existing.kind != kind { return Failed(IdentityConflict); }
      } else {
        if |InScope(connection, k.vertical, k.scope)| >= MAX_ASSESSMENTS_PER_SCOPE { return Failed(CapacityReached); }
        connection := Inserted(c, connection, k, kind, snapshot, clock.now);
      }
      connection, outcome := CheckAssessment(connection, k, clock.now, None, Answered);
      if !outcome.Failed? {
        db := connection;
      }
    }

    method AssessmentStatus(k: Key, clock: Reading, connectors: Registry, lookup: Lookup) returns (outcome: Outcome)
      requires Valid()
      modifies this`db
      ensures Valid()
      ensures unavailable && ScopeValid(k.vertical, k.scope) ==> outcome == Failed(StoreDown) && db == old(db)
      ensures !unavailable ==>
        (db, outcome) ==
        if lookup != Answered && ScopeValid(k.vertical, k.scope) && ReadingValid(clock)
           && ResolvesAgain(c, old(db), k, clock.now, Some(connectors))
        then (old(db), Failed(EvidenceUnavailable)) else CheckStatus(c, old(db), k, clock, connectors)
    {
      if !ScopeValid(k.vertical, k.scope) { return Failed(ScopeInvalid); }
      if unavailable { return Failed(StoreDown); }
      if !ReadingValid(clock) { return Failed(ClockUnavailable); }
      var connection := db;
      connection, outcome := CheckAssessment(connection, k, clock.now, Some(connectors), lookup);
      if !outcome.Failed? {
        db := connection;
      }
    }
  }
}
