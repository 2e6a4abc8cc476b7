/** Double-ended queues with a capacity: what is left of a log of which only the end is kept. */
module BoundedLogs {

  /** The last `n` elements, or all of them. */
  function Last<T>(log: seq<T>, n: nat): (tail: seq<T>)
    ensures |tail| == if |log| < n then |log| else n
  {
    if |log| <= n then log else log[|log| - n..]
  }

  /** Appending to a full queue drops its first element. */
  function Pushed<T>(queue: seq<T>, x: T, capacity: nat): seq<T> {
    if capacity == 0 then []
    else if |queue| < capacity then queue + [x]
    else queue[|queue| - capacity + 1..] + [x]
  }

  /** Keeping the end while appending is keeping the end of the whole log. */
  lemma PushedIsLast<T>(log: seq<T>, x: T, capacity: nat)
    ensures Pushed(Last(log, capacity), x, capacity) == Last(log + [x], capacity)
  {
  }
}
