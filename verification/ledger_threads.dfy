/**
 Threads that share the ledger under one lock. The clock is read while the lock is held, so however
 threads interleave, no check is dated before an earlier one and a regressed clock is never recorded.
 A reading taken before the lock would not do.
 */
module LedgerThreads {
  import opened Prelude
  import opened Ledger
  import opened LedgerSafety
  import opened LedgerHistory

  type Thread = nat

  /** The shared ledger, the clock, the thread inside the critical section and what it read there. */
  datatype Machine = Machine(db: Db, clock: Time, holder: Option<Thread>, sample: Option<Time>)

  datatype Action =
    | Tick(step: Time)
    | Acquire(t: Thread)
    | Sample(t: Thread)
    | Commit(t: Thread, op: Op)
    | Abort(t: Thread)

  /** The operation as it runs inside the transaction that read the clock. */
  function Dated(op: Op, now: Time): Op {
    match op
    case OpPut(_, _) => op
    case OpWithdraw(v, s, digests, _) => OpWithdraw(v, s, digests, At(now))
    case OpRegister(key, kind, snap, _) => OpRegister(key, kind, snap, At(now))
    case OpStatus(key, _, connectors) => OpStatus(key, At(now), connectors)
  }

  /** One atomic action; an action out of turn changes nothing. */
  function Act(c: Codec, m: Machine, a: Action): Machine {
    match a
    case Tick(step) => if step >= 0 then m.(clock := m.clock + step) else m
    case Acquire(t) => if m.holder.None? then m.(holder := Some(t), sample := None) else m
    case Sample(t) => if m.holder == Some(t) then m.(sample := Some(m.clock)) else m
    case Commit(t, op) =>
      if m.holder == Some(t) && (op.OpPut? || m.sample.Some?) then
        Machine(Apply(c, m.db, if m.sample.Some? then Dated(op, m.sample.value) else op).0, m.clock, None, None)
      else m
    case Abort(t) => if m.holder == Some(t) then m.(holder := None, sample := None) else m
  }

  function Interleave(c: Codec, m: Machine, actions: seq<Action>): Machine {
    if actions == [] then m
    else Act(c, Interleave(c, m, actions[..|actions| - 1]), actions[|actions| - 1])
  }

  /** Every check so far is dated at or before `now`, and none found the clock regressed. */
  ghost predicate NotRegressed(a: Assessment, now: Time) {
    a.lastCheckedAt <= now && forall ch | ch in a.reasons :: ch.reason != AssessmentClockRegressed
  }

  ghost predicate ChecksBefore(db: Db, now: Time) {
    forall k | k in db.assessments :: NotRegressed(db.assessments[k], now)
  }

  ghost predicate Orderly(m: Machine) {
    && ChecksBefore(m.db, m.clock)
    && (m.sample.Some? ==> m.holder.Some? && m.sample.value <= m.clock && ChecksBefore(m.db, m.sample.value))
  }

  // ------------------------------------------------ one operation, dated `now`

  lemma InvalidateBefore(c: Codec, db: Db, v: string, s: string, d: Digest, now: Time)
    requires ChecksBefore(db, now)
    ensures ChecksBefore(Invalidate(c, db, v, s, d), now)
  {
  }

  lemma {:induction false} WithdrawAllBefore(c: Codec, db: Db, v: string, s: string, ds: seq<Digest>, at: Time,
                                             now: Time)
    requires ChecksBefore(db, now)
    ensures ChecksBefore(WithdrawAll(c, db, v, s, ds, at), now)
  {
    hide NotRegressed, Invalidate;
    if ds != [] {
      var mid := WithdrawAll(c, db, v, s, ds[..|ds| - 1], at);
      WithdrawAllBefore(c, db, v, s, ds[..|ds| - 1], at, now);
      var k := Key(v, s, ds[|ds| - 1]);
      var e := if k in mid.evidence.withdrawals then mid.evidence
               else mid.evidence.(withdrawals := mid.evidence.withdrawals[k := at]);
      InvalidateBefore(c, mid.(evidence := e), v, s, ds[|ds| - 1], now);
    }
  }

  lemma CheckBefore(c: Codec, db: Db, k: Key, now: Time, connectors: Option<Registry>)
    requires ChecksBefore(db, now)
    ensures ChecksBefore(Check(c, db, k, now, connectors).0, now)
  {
  }

  lemma RegisterBefore(c: Codec, db: Db, k: Key, kind: Kind, snap: Snapshot, now: Time)
    requires ChecksBefore(db, now)
    ensures ChecksBefore(Register(c, db, k, kind, snap, At(now)).0, now)
  {
    if RegistrationError(c, db, k, kind, snap, At(now)).None? {
      var inserted := Inserted(c, db, k, kind, snap, now);
      assert ChecksBefore(inserted, now) by {
        forall o | o in inserted.assessments ensures NotRegressed(inserted.assessments[o], now) {
          if o != k { assert NotRegressed(db.assessments[o], now); }
        }
      }
      hide NotRegressed, ChecksBefore, Check, RegistrationError, Inserted;
      CheckBefore(c, db, k, now, None);
      CheckBefore(c, inserted, k, now, None);
    }
  }

  lemma ApplyBefore(c: Codec, db: Db, op: Op, now: Time)
    requires ChecksBefore(db, now)
    ensures ChecksBefore(Apply(c, db, Dated(op, now)).0, now)
    ensures op.OpPut? ==> ChecksBefore(Apply(c, db, op).0, now)
  {
    match op
    case OpPut(receipt, summary) =>
      var b := receipt.basis;
      var e := db.evidence.(observations := db.evidence.observations[receipt.id := Row(b, summary)]);
      assert ChecksBefore(db.(evidence := e), now);
      InvalidateBefore(c, db.(evidence := e), b.vertical, b.scope, b.payload, now);
    case OpWithdraw(v, s, digests, _) => WithdrawAllBefore(c, db, v, s, Ascending(Elements(digests)), now, now);
    case OpRegister(key, kind, snap, _) => RegisterBefore(c, db, key, kind, snap, now);
    case OpStatus(key, _, connectors) => CheckBefore(c, db, key, now, Some(connectors));
  }

  lemma ChecksLater(db: Db, now: Time, later: Time)
    requires ChecksBefore(db, now) && now <= later
    ensures ChecksBefore(db, later)
  {
  }

  // ------------------------------------------------------------- interleavings

  lemma ActKeepsOrder(c: Codec, m: Machine, a: Action)
    requires Orderly(m)
    ensures Orderly(Act(c, m, a))
  {
    hide ChecksBefore, Apply;
    match a
    case Tick(step) => if step >= 0 { ChecksLater(m.db, m.clock, m.clock + step); }
    case Commit(t, op) =>
      if m.holder == Some(t) && m.sample.Some? {
        ApplyBefore(c, m.db, op, m.sample.value);
        ChecksLater(Apply(c, m.db, Dated(op, m.sample.value)).0, m.sample.value, m.clock);
      } else if m.holder == Some(t) && op.OpPut? {
        ApplyBefore(c, m.db, op, m.clock);
      }
    case _ =>
  }

  /** In every interleaving, under a clock that never runs backwards, no check finds it regressed. */
  lemma {:induction false} NoFalseRegression(c: Codec, clock: Time, actions: seq<Action>)
    ensures var m := Interleave(c, Machine(EMPTY_DB, clock, None, None), actions);
            && Orderly(m)
            && forall k | k in m.db.assessments ::
                 m.db.assessments[k].lastCheckedAt <= m.clock
                 && forall ch | ch in m.db.assessments[k].reasons :: ch.reason != AssessmentClockRegressed
  {
    if actions != [] {
      NoFalseRegression(c, clock, actions[..|actions| - 1]);
      ActKeepsOrder(c, Interleave(c, Machine(EMPTY_DB, clock, None, None), actions[..|actions| - 1]),
                    actions[|actions| - 1]);
    }
    var m := Interleave(c, Machine(EMPTY_DB, clock, None, None), actions);
    forall k | k in m.db.assessments ensures NotRegressed(m.db.assessments[k], m.clock) {}
  }

  /** Once reported with reasons, an assessment is reported with them after any further operations. */
  lemma ReasonsStay(c: Codec, db: Db, k: Key, ops: seq<Op>, now: Time, connectors: Registry)
    requires CollisionFree(c) && Sound(c, db) && forall i | 0 <= i < |ops| :: Genuine(c, ops[i])
    requires ScopeValid(k.vertical, k.scope) && now >= 0
    requires k in db.assessments && db.assessments[k].invalidated
    ensures var last := CheckStatus(c, Run(c, db, ops), k, At(now), connectors).1;
      last.Status? && !last.current && last.changes == db.assessments[k].reasons
  {
    hide Run, Findings, LocalFindings, Eager, RowsGenuine;
    RunExtends(c, db, ops);
    RunKeeps(c, db, ops);
    assert Latched(Run(c, db, ops));
  }

  /**
   Had a thread read the clock before taking the lock, another thread's later check could come first. The
   regression is then recorded for good: whatever happens afterwards, every check reports it.
   */
  lemma EarlyReadingLatches(c: Codec, db: Db, k: Key, early: Time, late: Time, connectors: Registry,
                            ops: seq<Op>, now: Time, others: Registry)
    requires CollisionFree(c) && Sound(c, db) && 0 <= early < late
    requires CheckStatus(c, db, k, At(late), connectors).1.Status?
             && CheckStatus(c, db, k, At(late), connectors).1.current
    requires (forall i | 0 <= i < |ops| :: Genuine(c, ops[i])) && now >= 0
    ensures var after := CheckStatus(c, db, k, At(late), connectors).0;
      var (latched, second) := CheckStatus(c, after, k, At(early), connectors);
      var last := CheckStatus(c, Run(c, latched, ops), k, At(now), others).1;
      && second.Status? && !second.current && Change(None, AssessmentClockRegressed) in second.changes
      && last.Status? && !last.current && last.changes == second.changes
  {
    var after := CheckStatus(c, db, k, At(late), connectors).0;
    var (latched, second) := CheckStatus(c, after, k, At(early), connectors);
    StatusKeeps(c, db, k, At(late), connectors);
    StatusKeeps(c, after, k, At(early), connectors);
    CheckReflects(c, after, k, early, Some(connectors));
    hide Run, Findings, LocalFindings, Eager, RowsGenuine, Checked;
    ReasonsStay(c, latched, k, ops, now, others);
  }

  // --------------------------------------------------------------------- isolation

  /** Actions of the clock and of threads other than `t`. */
  predicate ByOthers(actions: seq<Action>, t: Thread) {
    forall a | a in actions :: a.Tick? || a.t != t
  }

  /** How far the clock moves; it does not go back. */
  function Elapsed(actions: seq<Action>): Time {
    if actions == [] then 0
    else
      var last := actions[|actions| - 1];
      Elapsed(actions[..|actions| - 1]) + if last.Tick? && last.step > 0 then last.step else 0
  }

  /** While a thread holds the lock the others wait. */
  lemma {:induction false} OthersWait(c: Codec, m: Machine, actions: seq<Action>, t: Thread)
    requires m.holder == Some(t) && ByOthers(actions, t)
    ensures Interleave(c, m, actions) == m.(clock := m.clock + Elapsed(actions))
    ensures Elapsed(actions) >= 0
  {
    hide Apply;
    if actions != [] {
      OthersWait(c, m, actions[..|actions| - 1], t);
      assert actions[|actions| - 1] in actions;
    }
  }

  lemma {:induction false} InterleaveConcat(c: Codec, m: Machine, a: seq<Action>, b: seq<Action>)
    ensures Interleave(c, m, a + b) == Interleave(c, Interleave(c, m, a), b)
  {
    if b == [] {
      assert a + b == a;
    } else {
      hide Act;
      var n := |b| - 1;
      assert (a + b)[..|a + b| - 1] == a + b[..n];
      InterleaveConcat(c, m, a, b[..n]);
    }
  }

  lemma OneAction(c: Codec, m: Machine, a: Action)
    ensures Interleave(c, m, [a]) == Act(c, m, a)
  {
    assert [a][..0] == [];
    assert Interleave(c, m, []) == m;
  }

  /**
   A transaction is isolated: whatever other threads attempt between its steps, it runs on the ledger it found, dated
   by the clock at its reading, and leaves the lock free.
   */
  lemma TransactionIsolated(c: Codec, m: Machine, t: Thread, op: Op, before: seq<Action>, after: seq<Action>)
    requires m.holder.None? && ByOthers(before, t) && ByOthers(after, t)
    ensures var now := m.clock + Elapsed(before);
      && Interleave(c, m, [Acquire(t)] + before + [Sample(t)] + after + [Commit(t, op)])
         == Machine(Apply(c, m.db, Dated(op, now)).0, now + Elapsed(after), None, None)
      && now >= m.clock
  {
    hide Apply, Interleave;
    var a := [Acquire(t)] + before;
    var b := a + [Sample(t)];
    InterleaveConcat(c, m, [Acquire(t)], before);
    InterleaveConcat(c, m, a, [Sample(t)]);
    InterleaveConcat(c, m, b, after);
    InterleaveConcat(c, m, b + after, [Commit(t, op)]);
    var locked := m.(holder := Some(t), sample := None);
    OneAction(c, m, Acquire(t));
    OthersWait(c, locked, before, t);
    var waited := locked.(clock := m.clock + Elapsed(before));
    OneAction(c, waited, Sample(t));
    var sampled := waited.(sample := Some(waited.clock));
    OthersWait(c, sampled, after, t);
    OneAction(c, sampled.(clock := sampled.clock + Elapsed(after)), Commit(t, op));
  }

  /** An aborted transaction changes nothing but the lock it gives back. */
  lemma AbortedChangesNothing(c: Codec, m: Machine, t: Thread, between: seq<Action>)
    requires m.holder.None? && m.sample.None? && ByOthers(between, t)
    ensures Interleave(c, m, [Acquire(t)] + between + [Abort(t)]) == m.(clock := m.clock + Elapsed(between))
  {
    hide Interleave;
    InterleaveConcat(c, m, [Acquire(t)], between);
    InterleaveConcat(c, m, [Acquire(t)] + between, [Abort(t)]);
    OneAction(c, m, Acquire(t));
    var locked := m.(holder := Some(t), sample := None);
    OthersWait(c, locked, between, t);
    OneAction(c, locked.(clock := m.clock + Elapsed(between)), Abort(t));
  }
}
