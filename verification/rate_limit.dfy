/**
 The rate limit of the policy gate: a queue of at most 120 call times for each session and actor. A call
 brings the time it read before it took the lock, so times may reach the queue out of order. What the
 decisions bound in any order, and when they are those of a log of every call ever made.
 */
module RateLimit {
  import opened BoundedLogs

  const LIMIT: nat := 60
  const WINDOW: real := 60.0
  const CAPACITY: nat := 120

  type Caller = (string, string)

  predicate Nondecreasing(calls: seq<real>) {
    forall i, j | 0 <= i < j < |calls| :: calls[i] <= calls[j]
  }

  /** How many of the calls were made less than a window before `now`. */
  function Recent(calls: seq<real>, now: real): nat {
    if calls == [] then 0
    else Recent(calls[..|calls| - 1], now) + (if now - calls[|calls| - 1] < WINDOW then 1 else 0)
  }

  /** The decision a complete log of the earlier calls gives. */
  predicate Allowed(log: seq<real>, now: real) { Recent(log, now) < LIMIT }

  // ------------------------------------------------------- the queue and the log

  lemma {:induction false} RecentConcat(a: seq<real>, b: seq<real>, now: real)
    ensures Recent(a + b, now) == Recent(a, now) + Recent(b, now)
  {
    if b == [] {
      assert a + b == a;
    } else {
      var n := |b| - 1;
      assert (a + b)[..|a + b| - 1] == a + b[..n];
      RecentConcat(a, b[..n], now);
    }
  }

  predicate AllStale(calls: seq<real>, now: real) {
    forall i | 0 <= i < |calls| :: now - calls[i] >= WINDOW
  }

  lemma {:induction false} NoneRecent(calls: seq<real>, now: real)
    requires AllStale(calls, now)
    ensures Recent(calls, now) == 0
  {
    if calls != [] { NoneRecent(calls[..|calls| - 1], now); }
  }

  lemma {:induction false} AllRecent(calls: seq<real>, now: real)
    requires forall i | 0 <= i < |calls| :: now - calls[i] < WINDOW
    ensures Recent(calls, now) == |calls|
  {
    if calls != [] { AllRecent(calls[..|calls| - 1], now); }
  }

  lemma InOrder(a: seq<real>, b: seq<real>)
    requires Nondecreasing(a + b)
    ensures Nondecreasing(a) && Nondecreasing(b)
    ensures forall i, j | 0 <= i < |a| && 0 <= j < |b| :: a[i] <= b[j]
  {
    var c := a + b;
    assert forall i | 0 <= i < |a| :: a[i] == c[i];
    assert forall j | 0 <= j < |b| :: b[j] == c[|a| + j];
    forall i, j | 0 <= i < j < |b| ensures b[i] <= b[j] { assert c[|a| + i] <= c[|a| + j]; }
    forall i, j | 0 <= i < |a| && 0 <= j < |b| ensures a[i] <= b[j] { assert c[i] <= c[|a| + j]; }
  }

  /**
   The calls dropped from the queue do not matter: unless the queue is full they have all been stale
   since the last call.
   */
  predicate Dropped(gone: seq<real>, queue: seq<real>, last: real) {
    |queue| == CAPACITY || AllStale(gone, last)
  }

  lemma StaleLater(calls: seq<real>, now: real, later: real)
    requires AllStale(calls, now) && now <= later
    ensures AllStale(calls, later)
  {
  }

  /** Calls made no later than a stale one are stale. */
  lemma StaleBefore(gone: seq<real>, stale: seq<real>, now: real)
    requires Nondecreasing(gone + stale) && stale != [] && AllStale(stale, now)
    ensures AllStale(gone, now)
  {
    InOrder(gone, stale);
    assert now - stale[0] >= WINDOW;
  }

  /** Calls made no earlier than a recent one are recent. */
  lemma LiveAfter(live: seq<real>, now: real)
    requires Nondecreasing(live) && (live == [] || now - live[0] < WINDOW)
    ensures Recent(live, now) == |live|
  {
  }

  /** Once the stale calls are popped, the length of the queue decides as the log does. */
  lemma PoppedCounts(gone: seq<real>, stale: seq<real>, live: seq<real>, last: real, now: real)
    requires Nondecreasing(gone + (stale + live)) && last <= now
    requires Dropped(gone, stale + live, last) && AllStale(stale, now)
    requires live == [] || now - live[0] < WINDOW
    ensures |live| < LIMIT <==> Allowed(gone + (stale + live), now)
  {
    hide Nondecreasing, AllStale, Recent;
    InOrder(gone, stale + live);
    InOrder(stale, live);
    RecentConcat(gone, stale + live, now);
    RecentConcat(stale, live, now);
    LiveAfter(live, now);
    NoneRecent(stale, now);
    if |live| < LIMIT {
      GoneStale(gone, stale, live, last, now);
      NoneRecent(gone, now);
    }
  }

  lemma GoneStale(gone: seq<real>, stale: seq<real>, live: seq<real>, last: real, now: real)
    requires Nondecreasing(gone + (stale + live)) && last <= now
    requires Dropped(gone, stale + live, last) && AllStale(stale, now) && |live| < CAPACITY
    ensures AllStale(gone, now)
  {
    hide Nondecreasing, AllStale;
    if |stale + live| == CAPACITY {
      assert gone + (stale + live) == (gone + stale) + live;
      InOrder(gone + stale, live);
      StaleBefore(gone, stale, now);
    } else {
      StaleLater(gone, last, now);
    }
  }

  /** The new call may push out the oldest one, but then the queue is full. */
  lemma PushDrops(gone: seq<real>, stale: seq<real>, live: seq<real>, last: real, now: real)
    returns (next: seq<real>)
    requires Nondecreasing(gone + (stale + live)) && last <= now
    requires Dropped(gone, stale + live, last) && AllStale(stale, now) && |live| <= CAPACITY
    ensures next + Pushed(live, now, CAPACITY) == (gone + (stale + live)) + [now]
    ensures Dropped(next, Pushed(live, now, CAPACITY), now)
  {
    hide Nondecreasing;
    if |live| < CAPACITY {
      next := gone + stale;
      GoneStale(gone, stale, live, last, now);
    } else {
      next := gone + stale + live[..1];
      assert live == live[..1] + live[1..];
    }
  }

  /** How many calls at the front of the queue are stale. */
  function StaleFront(queue: seq<real>, now: real): (n: nat)
    ensures n <= |queue|
    ensures forall i | 0 <= i < n :: now - queue[i] >= WINDOW
    ensures n < |queue| ==> now - queue[n] < WINDOW
  {
    if queue == [] || now - queue[0] < WINDOW then 0
    else
      var n := StaleFront(queue[1..], now);
      assert forall i | 1 <= i < n + 1 :: queue[i] == queue[1..][i - 1];
      n + 1
  }

  /** The queue without the stale calls at its front. */
  function Popped(queue: seq<real>, now: real): seq<real> { queue[StaleFront(queue, now)..] }

  function QueueOf(queues: map<Caller, seq<real>>, caller: Caller): seq<real> {
    if caller in queues then queues[caller] else []
  }

  /** The queue is the end of the log, and what was dropped does not matter. */
  ghost predicate Follows(queue: seq<real>, log: seq<real>) {
    |queue| <= CAPACITY && exists gone :: log == gone + queue && (log == [] || Dropped(gone, queue, log[|log| - 1]))
  }

  /** One call keeps the queue behind the log, and both decide alike. */
  lemma CallFollows(queue: seq<real>, log: seq<real>, now: real)
    requires Follows(queue, log) && Nondecreasing(log + [now])
    ensures Follows(Pushed(Popped(queue, now), now, CAPACITY), log + [now])
    ensures |Popped(queue, now)| < LIMIT <==> Allowed(log, now)
  {
    var n := StaleFront(queue, now);
    assert AllStale(queue[..n], now);
    hide Nondecreasing, Dropped, Recent, AllStale, Pushed, StaleFront;
    var gone :| log == gone + queue && (log == [] || Dropped(gone, queue, log[|log| - 1]));
    hide Follows;
    var live := Popped(queue, now);
    var stale := queue[..n];
    var last := if log == [] then now else log[|log| - 1];
    assert Dropped(gone, queue, last) by { if log == [] { NothingDropped(queue, now); } }
    LastCall(log, now);
    assert queue == stale + live;
    PoppedCounts(gone, stale, live, last, now);
    var next := PushDrops(gone, stale, live, last, now);
    FollowsBehind(next, Pushed(live, now, CAPACITY), log + [now]);
  }

  lemma FollowsBehind(gone: seq<real>, queue: seq<real>, log: seq<real>)
    requires |queue| <= CAPACITY && log != [] && log == gone + queue && Dropped(gone, queue, log[|log| - 1])
    ensures Follows(queue, log)
  {
    hide Dropped;
  }

  lemma LastCall(log: seq<real>, now: real)
    requires Nondecreasing(log + [now])
    ensures Nondecreasing(log) && (log != [] ==> log[|log| - 1] <= now)
  {
    InOrder(log, [now]);
    assert log != [] ==> log[|log| - 1] <= [now][0];
  }

  lemma NothingDropped(queue: seq<real>, last: real)
    ensures Dropped([], queue, last)
  {
  }

  /** The queue after the calls, given by their times in the order they took the lock. */
  function QueueAfter(calls: seq<real>): seq<real> {
    if calls == [] then []
    else
      var now := calls[|calls| - 1];
      Pushed(Popped(QueueAfter(calls[..|calls| - 1]), now), now, CAPACITY)
  }

  /** What the queue decides on a call timed `now` after those calls. */
  predicate Decided(calls: seq<real>, now: real) { |Popped(QueueAfter(calls), now)| < LIMIT }

  class Limiter {
    var hits: map<Caller, seq<real>>
    /** Every call ever made, in the order the calls took the lock. */
    ghost var logs: map<Caller, seq<real>>

    ghost predicate Valid()
      reads this
    {
      hits.Keys == logs.Keys && forall c | c in hits :: hits[c] == QueueAfter(logs[c])
    }

    constructor ()
      ensures Valid() && hits == map[] && logs == map[]
    {
      hits, logs := map[], map[];
    }

    /** The part of a call under the lock; `now` was read before. The other callers' queues stay. */
    method RateOk(caller: Caller, now: real) returns (allowed: bool)
      requires Valid()
      modifies this
      ensures Valid()
      ensures logs == old(logs)[caller := QueueOf(old(logs), caller) + [now]]
      ensures allowed <==> Decided(QueueOf(old(logs), caller), now)
    {
      ghost var log := QueueOf(logs, caller);
      var queue := QueueOf(hits, caller);
      var live := queue;
      ghost var n := 0;
      while live != [] && now - live[0] >= WINDOW
        invariant n <= |queue| && live == queue[n..]
        invariant forall i | 0 <= i < n :: now - queue[i] >= WINDOW
        decreases |live|
      {
        live := live[1..];
        n := n + 1;
      }
      assert n == StaleFront(queue, now);
      hide Pushed, StaleFront;
      assert (log + [now])[..|log|] == log;
      allowed := |live| < LIMIT;
      hits := hits[caller := Pushed(live, now, CAPACITY)];
      logs := logs[caller := log + [now]];
    }
  }

  lemma NothingFollows()
    ensures Follows([], [])
  {
    var none: seq<real> := [];
    assert none == none + none;
  }

  lemma {:induction false} QueueFollows(calls: seq<real>)
    requires Nondecreasing(calls)
    ensures Follows(QueueAfter(calls), calls)
  {
    hide Pushed, Popped, Follows;
    if calls == [] {
      NothingFollows();
    } else {
      var n := |calls| - 1;
      assert calls == calls[..n] + [calls[n]];
      QueueFollows(calls[..n]);
      CallFollows(QueueAfter(calls[..n]), calls[..n], calls[n]);
    }
  }

  /** While the times reach the queue in order, it decides as the complete log does. */
  lemma DecidedInOrder(calls: seq<real>, now: real)
    requires Nondecreasing(calls + [now])
    ensures Decided(calls, now) <==> Allowed(calls, now)
  {
    hide Nondecreasing, Popped, Recent, Follows;
    LastCall(calls, now);
    QueueFollows(calls);
    CallFollows(QueueAfter(calls), calls, now);
  }

  // --------------------------------------------------------- what the limit bounds

  /** A call is admitted exactly when the call sixty before it is a window or more ago. */
  lemma AllowedExactly(calls: seq<real>, j: nat)
    requires Nondecreasing(calls) && j < |calls|
    ensures Allowed(calls[..j], calls[j]) <==> j < 60 || calls[j] - calls[j - 60] >= 60.0
  {
    var now := calls[j];
    if j < LIMIT {
      RecentAtMost(calls[..j], now);
    } else {
      var k := j - LIMIT;
      var early, recent := calls[..k + 1], calls[k + 1..j];
      assert calls[..j] == early + recent;
      RecentConcat(early, recent, now);
      RecentAtMost(recent, now);
      if now - calls[k] >= WINDOW {
        NoneRecent(early, now);
      } else {
        assert early == calls[..k] + [calls[k]];
        RecentConcat(calls[..k], [calls[k]], now);
        AllRecent(recent, now);
        AllRecent([calls[k]], now);
      }
    }
  }

  lemma {:induction false} RecentAtMost(calls: seq<real>, now: real)
    ensures Recent(calls, now) <= |calls|
  {
    if calls != [] { RecentAtMost(calls[..|calls| - 1], now); }
  }

  /** How many of the calls from `from` up to `to` are admitted. */
  function Admitted(calls: seq<real>, from: nat, to: nat): nat
    requires from <= to <= |calls|
  {
    if from == to then 0
    else Admitted(calls, from, to - 1) + (if Allowed(calls[..to - 1], calls[to - 1]) then 1 else 0)
  }

  lemma {:induction false} AdmittedAtMost(calls: seq<real>, from: nat, to: nat)
    requires from <= to <= |calls|
    ensures Admitted(calls, from, to) <= to - from
  {
    if from < to { AdmittedAtMost(calls, from, to - 1); }
  }

  /** Of calls timed in order, at most sixty are admitted in any span shorter than the window, denied ones counting. */
  lemma {:induction false} SpanBounded(calls: seq<real>, from: nat, to: nat)
    requires Nondecreasing(calls) && from < to <= |calls|
    requires calls[to - 1] - calls[from] < 60.0
    ensures Admitted(calls, from, to) <= 60
  {
    var j := to - 1;
    if Allowed(calls[..j], calls[j]) {
      AllowedExactly(calls, j);
      AdmittedAtMost(calls, from, j);
    } else if from < j {
      SpanBounded(calls, from, j);
    }
  }

  // ------------------------------------------------------------ in whatever order

  /** All of the calls are timed less than a window apart. */
  predicate Close(calls: seq<real>) {
    forall i, j | 0 <= i < |calls| && 0 <= j < |calls| :: calls[i] - calls[j] < 60.0
  }

  predicate EndsIn(queue: seq<real>, tail: seq<real>) {
    |tail| <= |queue| && queue[|queue| - |tail|..] == tail
  }

  /** No call of a close stretch is popped by another one of it. */
  lemma PoppedKeeps(queue: seq<real>, block: seq<real>, now: real)
    requires EndsIn(queue, Last(block, CAPACITY)) && Close(block + [now])
    ensures EndsIn(Popped(queue, now), Last(block, CAPACITY))
  {
    var tail := Last(block, CAPACITY);
    var n := StaleFront(queue, now);
    if tail != [] {
      var k := |queue| - |tail|;
      assert queue[k] == queue[k..][0] == tail[0] == block[|block| - |tail|];
      assert (block + [now])[|block|] == now && (block + [now])[|block| - |tail|] == tail[0];
      assert n <= k;
      assert Popped(queue, now)[k - n..] == queue[k..];
    }
  }

  lemma PushedKeeps(live: seq<real>, block: seq<real>, now: real)
    requires EndsIn(live, Last(block, CAPACITY))
    ensures EndsIn(Pushed(live, now, CAPACITY), Last(block + [now], CAPACITY))
  {
    var tail, next := Last(block, CAPACITY), Pushed(live, now, CAPACITY);
    var last := Last(block + [now], CAPACITY);
    var k := |next| - |last|;
    assert |last| <= |tail| + 1 && 0 <= k;
    forall i | 0 <= i < |last| ensures next[k..][i] == last[i] {
      if i < |last| - 1 {
        var j := |tail| - (|last| - 1) + i;
        assert tail[j] == live[|live| - |tail|..][j];
      }
    }
  }

  lemma {:induction false} QueueKeeps(before: seq<real>, block: seq<real>)
    requires Close(block)
    ensures EndsIn(QueueAfter(before + block), Last(block, CAPACITY))
  {
    hide Popped, Pushed, Last, EndsIn;
    if block == [] {
      EndsInNothing(QueueAfter(before + block));
    } else {
      var n := |block| - 1;
      var front, now := block[..n], block[n];
      assert block == front + [now];
      assert (before + block)[..|before + block| - 1] == before + front;
      QueueKeeps(before, front);
      PoppedKeeps(QueueAfter(before + front), front, now);
      PushedKeeps(Popped(QueueAfter(before + front), now), front, now);
    }
  }

  lemma EndsInNothing(queue: seq<real>)
    ensures EndsIn(queue, Last([], CAPACITY))
  {
  }

  /** A queue keeps the last 120 calls, and of calls that come within a window all of these. */
  lemma QueueHolds(before: seq<real>, block: seq<real>)
    requires Close(block)
    ensures |QueueAfter(before + block)| <= 120
    ensures var q, n := QueueAfter(before + block), if |block| < 120 then |block| else 120;
      n <= |q| && q[|q| - n..] == block[|block| - n..]
  {
    hide Popped;
    QueueKeeps(before, block);
  }

  /** How many of the calls from `from` up to `to` the queue admits. */
  function Passed(calls: seq<real>, from: nat, to: nat): nat
    requires from <= to <= |calls|
  {
    if from == to then 0
    else Passed(calls, from, to - 1) + (if Decided(calls[..to - 1], calls[to - 1]) then 1 else 0)
  }

  /** Within a stretch of close calls only the first sixty can be admitted. */
  lemma OnlyFirstPass(calls: seq<real>, from: nat, j: nat)
    requires from <= j < |calls| && Close(calls[from..j + 1])
    ensures Decided(calls[..j], calls[j]) ==> j - from < LIMIT
  {
    hide QueueAfter, Popped;
    var block := calls[from..j];
    assert calls[from..j + 1] == block + [calls[j]];
    assert calls[..j] == calls[..from] + block;
    CloseFront(block, calls[j]);
    QueueKeeps(calls[..from], block);
    PoppedKeeps(QueueAfter(calls[..j]), block, calls[j]);
  }

  lemma CloseFront(block: seq<real>, now: real)
    requires Close(block + [now])
    ensures Close(block)
  {
    assert forall i | 0 <= i < |block| :: block[i] == (block + [now])[i];
  }

  lemma StretchFront(calls: seq<real>, from: nat, j: nat)
    requires from <= j < |calls| && Close(calls[from..j + 1])
    ensures Close(calls[from..j])
  {
    assert calls[from..j + 1] == calls[from..j] + [calls[j]];
    CloseFront(calls[from..j], calls[j]);
  }

  /**
   In whatever order the times reach the queue: of calls that take the lock one after the other and are
   all timed less than a window apart, at most sixty are admitted, denied ones counting too.
   */
  lemma {:induction false} StretchBounded(calls: seq<real>, from: nat, to: nat)
    requires from <= to <= |calls| && Close(calls[from..to])
    ensures Passed(calls, from, to) <= 60 && Passed(calls, from, to) <= to - from
  {
    if from < to {
      hide Close, Decided;
      StretchFront(calls, from, to - 1);
      StretchBounded(calls, from, to - 1);
      OnlyFirstPass(calls, from, to - 1);
    }
  }
}
