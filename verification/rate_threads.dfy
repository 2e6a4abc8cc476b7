/**
 Threads serving the calls of one caller. Each reads the clock, then takes the lock and decides, so that
 another thread can take the lock in between with a later time. What the limit loses by that, and that it
 would not if the clock were read under the lock.
 */
module RateThreads {
  import opened BoundedLogs
  import opened RateLimit

  type Thread = nat

  /** The clock, the times read but not yet brought under the lock, and the calls decided so far. */
  datatype Machine = Machine(clock: real, readings: map<Thread, real>, calls: seq<real>, admitted: seq<bool>)

  const START := Machine(0.0, map[], [], [])

  datatype Action = Tick(step: real) | Read(t: Thread) | Enter(t: Thread) | ReadInside(t: Thread)

  function Decide(m: Machine, now: real): Machine {
    m.(calls := m.calls + [now], admitted := m.admitted + [Decided(m.calls, now)])
  }

  /** One atomic action; `ReadInside` is what the program does not do: it reads the clock under the lock. */
  function Act(m: Machine, a: Action): Machine {
    match a
    case Tick(step) => if step >= 0.0 then m.(clock := m.clock + step) else m
    case Read(t) => m.(readings := m.readings[t := m.clock])
    case Enter(t) => if t in m.readings then Decide(m, m.readings[t]).(readings := m.readings - {t}) else m
    case ReadInside(_) => Decide(m, m.clock)
  }

  function Run(m: Machine, actions: seq<Action>): Machine {
    if actions == [] then m else Act(Run(m, actions[..|actions| - 1]), actions[|actions| - 1])
  }

  /** The calls are timed in order and not after the clock. */
  predicate InTime(m: Machine) {
    Nondecreasing(m.calls) && (m.calls != [] ==> m.calls[|m.calls| - 1] <= m.clock)
  }

  /** Every decision so far is the one the complete log gives. */
  ghost predicate DecidedByLog(m: Machine) {
    |m.admitted| == |m.calls| && forall j | 0 <= j < |m.calls| :: m.admitted[j] <==> Allowed(m.calls[..j], m.calls[j])
  }

  lemma AppendInTime(calls: seq<real>, now: real)
    requires Nondecreasing(calls) && (calls != [] ==> calls[|calls| - 1] <= now)
    ensures Nondecreasing(calls + [now])
  {
    forall i | 0 <= i < |calls| ensures calls[i] <= now {
      assert i < |calls| - 1 ==> calls[i] <= calls[|calls| - 1];
    }
  }

  lemma DecideInTime(m: Machine)
    requires InTime(m) && DecidedByLog(m)
    ensures InTime(Decide(m, m.clock)) && DecidedByLog(Decide(m, m.clock))
  {
    hide Nondecreasing, Decided, Allowed;
    var next := Decide(m, m.clock);
    AppendInTime(m.calls, m.clock);
    DecidedInOrder(m.calls, m.clock);
    forall j | 0 <= j < |next.calls| ensures next.admitted[j] <==> Allowed(next.calls[..j], next.calls[j]) {
      assert next.calls[..j] == m.calls[..j];
      assert j == |m.calls| ==> m.calls[..j] == m.calls;
    }
  }

  predicate ReadsInside(actions: seq<Action>) {
    forall i | 0 <= i < |actions| :: !actions[i].Enter?
  }

  /** Were the clock read under the lock, every run would decide as the complete log does. */
  lemma {:induction false} LockedReadsDecide(actions: seq<Action>)
    requires ReadsInside(actions)
    ensures InTime(Run(START, actions)) && DecidedByLog(Run(START, actions))
  {
    if actions != [] {
      var n := |actions| - 1;
      LockedReadsDecide(actions[..n]);
      var m := Run(START, actions[..n]);
      assert !actions[n].Enter?;
      hide Nondecreasing, Decided, Allowed;
      if actions[n].ReadInside? { DecideInTime(m); }
    }
  }

  /** In every run each call is decided by the queue the calls before it left. */
  ghost predicate DecidedByQueue(m: Machine) {
    |m.admitted| == |m.calls| && forall j | 0 <= j < |m.calls| :: m.admitted[j] <==> Decided(m.calls[..j], m.calls[j])
  }

  lemma DecideByQueue(m: Machine, now: real)
    requires DecidedByQueue(m)
    ensures DecidedByQueue(Decide(m, now))
  {
    hide Decided;
    var next := Decide(m, now);
    forall j | 0 <= j < |next.calls| ensures next.admitted[j] <==> Decided(next.calls[..j], next.calls[j]) {
      assert next.calls[..j] == m.calls[..j];
      assert j == |m.calls| ==> m.calls[..j] == m.calls;
    }
  }

  /**
   However the threads interleave, of calls that take the lock one after the other and are all timed less
   than a window apart at most sixty are admitted.
   */
  lemma {:induction false} RunBounded(actions: seq<Action>)
    ensures DecidedByQueue(Run(START, actions))
    ensures var calls := Run(START, actions).calls;
      forall from, to | 0 <= from <= to <= |calls| && Close(calls[from..to]) :: Passed(calls, from, to) <= LIMIT
  {
    hide Decided;
    if actions != [] {
      var n := |actions| - 1;
      RunBounded(actions[..n]);
      var m := Run(START, actions[..n]);
      match actions[n]
      case Enter(t) => if t in m.readings { DecideByQueue(m, m.readings[t]); }
      case ReadInside(_) => DecideByQueue(m, m.clock);
      case _ =>
    }
    var calls := Run(START, actions).calls;
    forall from, to | 0 <= from <= to <= |calls| && Close(calls[from..to]) ensures Passed(calls, from, to) <= LIMIT {
      StretchBounded(calls, from, to);
    }
  }

  // ------------------------------------------------------------------ overtaken readings

  function Copies<T>(n: nat, x: T): (s: seq<T>)
    ensures |s| == n && forall i | 0 <= i < n :: s[i] == x
  {
    seq(n, _ => x)
  }

  lemma CopiesGrow<T>(n: nat, x: T)
    ensures Copies(n + 1, x) == Copies(n, x) + [x]
  {
  }

  lemma NothingStale(queue: seq<real>, now: real)
    requires queue == [] || now - queue[0] < WINDOW
    ensures Popped(queue, now) == queue
  {
  }

  lemma AllPopped(queue: seq<real>, now: real)
    requires forall i | 0 <= i < |queue| :: now - queue[i] >= WINDOW
    ensures Popped(queue, now) == []
  {
    assert StaleFront(queue, now) == |queue|;
  }

  lemma QueueGrows(calls: seq<real>, now: real)
    ensures QueueAfter(calls + [now]) == Pushed(Popped(QueueAfter(calls), now), now, CAPACITY)
  {
    assert (calls + [now])[..|calls|] == calls;
  }

  /** Calls that are all timed alike stay in the queue. */
  lemma {:induction false} BurstQueued(n: nat, t: real)
    requires n <= LIMIT
    ensures QueueAfter(Copies(n, t)) == Copies(n, t) && Popped(Copies(n, t), t) == Copies(n, t)
    ensures Decided(Copies(n, t), t) <==> n < LIMIT
  {
    hide Copies, Popped, QueueAfter;
    NothingStale(Copies(n, t), t);
    if n == 0 {
      assert Copies(0, t) == [];
      assert QueueAfter([]) == [] by { NoQueue(); }
    } else {
      BurstQueued(n - 1, t);
      CopiesGrow(n - 1, t);
      QueueGrows(Copies(n - 1, t), t);
    }
  }

  lemma NoQueue()
    ensures QueueAfter([]) == []
  {
  }

  /** A later call clears a burst out of the queue; a call timed before it finds the queue short. */
  lemma BurstCleared(t: real, a: real, b: real)
    requires a - t >= WINDOW && b - t < WINDOW
    ensures QueueAfter(Copies(LIMIT, t) + [a]) == [a]
    ensures Decided(Copies(LIMIT, t), a) && Decided(Copies(LIMIT, t) + [a], b)
    ensures !Allowed(Copies(LIMIT, t) + [a], b)
  {
    hide Copies, Popped, QueueAfter, Recent;
    var burst := Copies(LIMIT, t);
    BurstQueued(LIMIT, t);
    AllPopped(burst, a);
    QueueGrows(burst, a);
    NothingStale([a], b);
    RecentConcat(burst, [a], b);
    AllRecent(burst, b);
  }

  /**
   A call timed `b` that takes the lock after one timed `a` is judged as the complete log would judge it,
   whatever calls came before in order, if and only if its time is not the earlier one.
   */
  lemma OvertakingExactly(a: real, b: real)
    ensures (forall earlier | Nondecreasing(earlier + [a]) ::
               (Decided(earlier + [a], b) <==> Allowed(earlier + [a], b)))
            <==> a <= b
  {
    if a <= b {
      forall earlier | Nondecreasing(earlier + [a])
        ensures Decided(earlier + [a], b) <==> Allowed(earlier + [a], b)
      {
        AppendInTime(earlier + [a], b);
        DecidedInOrder(earlier + [a], b);
      }
    } else {
      var burst := Copies(LIMIT, a - WINDOW);
      assert Nondecreasing(burst + [a]);
      BurstCleared(a - WINDOW, a, b);
      assert !(Decided(burst + [a], b) <==> Allowed(burst + [a], b));
    }
  }

  // ------------------------------------------------------------- one call too many

  /** `n` calls, each reading the clock and entering at once. */
  function Burst(n: nat): seq<Action> {
    if n == 0 then [] else Burst(n - 1) + [Read(0), Enter(0)]
  }

  lemma RunTwo(m: Machine, actions: seq<Action>, a: Action, b: Action)
    ensures Run(m, actions + [a, b]) == Act(Act(Run(m, actions), a), b)
  {
    hide Act;
    var whole := actions + [a, b];
    assert whole[..|whole| - 1] == actions + [a];
    assert (actions + [a])[..|actions|] == actions;
  }

  lemma {:induction false} BurstAdmitted(n: nat)
    requires n <= LIMIT
    ensures Run(START, Burst(n)) == Machine(0.0, map[], Copies(n, 0.0), Copies(n, true))
  {
    hide Decided, Copies;
    if n == 0 {
      assert Copies(0, 0.0) == [] && Copies(0, true) == [];
    } else {
      BurstAdmitted(n - 1);
      hide Run;
      RunTwo(START, Burst(n - 1), Read(0), Enter(0));
      BurstQueued(n - 1, 0.0);
      CopiesGrow(n - 1, 0.0);
      CopiesGrow(n - 1, true);
      assert map[0 := 0.0] - {0} == map[];
    }
  }

  /** Thread 1 reads at 59 and waits; thread 2 reads at 60 and takes the lock first. */
  const OVERTAKING: seq<Action> :=
    Burst(LIMIT) + [Tick(59.0), Read(1)] + [Tick(1.0), Read(2)] + [Enter(2), Enter(1)]

  lemma OvertakingRun()
    ensures Run(START, OVERTAKING) == Machine(60.0, map[], Copies(LIMIT, 0.0) + [60.0, 59.0], Copies(LIMIT + 2, true))
  {
    hide Decided, Copies, Run, Burst, Allowed;
    var b := Burst(LIMIT);
    var first, second := b + [Tick(59.0), Read(1)], b + [Tick(59.0), Read(1)] + [Tick(1.0), Read(2)];
    var burst, passed := Copies(LIMIT, 0.0), Copies(LIMIT, true);
    BurstAdmitted(LIMIT);
    RunTwo(START, b, Tick(59.0), Read(1));
    assert Run(START, first) == Machine(59.0, map[1 := 59.0], burst, passed);
    RunTwo(START, first, Tick(1.0), Read(2));
    assert Run(START, second) == Machine(60.0, map[1 := 59.0, 2 := 60.0], burst, passed);
    RunTwo(START, second, Enter(2), Enter(1));
    BurstCleared(0.0, 60.0, 59.0);
    CopiesGrow(LIMIT, true);
    CopiesGrow(LIMIT + 1, true);
    var ended := Run(START, OVERTAKING);
    assert ended.calls == burst + [60.0, 59.0] && ended.admitted == Copies(LIMIT + 2, true);
    assert ended.readings == map[1 := 59.0, 2 := 60.0] - {2} - {1} == map[];
  }

  /** Sixty calls at time 0 and one at time 59 are all admitted: sixty-one within fifty-nine seconds. */
  lemma OvertakingAdmits()
    ensures var m := Run(START, OVERTAKING);
      && m.calls == Copies(LIMIT, 0.0) + [60.0, 59.0]
      && m.admitted == Copies(LIMIT + 2, true)
      && !DecidedByLog(m)
  {
    hide Decided, Copies, Run, Burst, Allowed;
    OvertakingRun();
    BurstCleared(0.0, 60.0, 59.0);
    var m := Run(START, OVERTAKING);
    assert m.calls[..LIMIT + 1] == Copies(LIMIT, 0.0) + [60.0] && m.calls[LIMIT + 1] == 59.0;
  }
}
