/** Sorting by a strict order, and why the sorted form of given members is unique. */
module Sorting {

  predicate Ordered<T>(less: (T, T) -> bool, xs: seq<T>) {
    forall i, j | 0 <= i < j < |xs| :: less(xs[i], xs[j])
  }

  ghost predicate StrictOrder<T(!new)>(less: (T, T) -> bool) {
    && (forall a :: !less(a, a))
    && forall a, b, c :: less(a, b) && less(b, c) ==> less(a, c)
  }

  /** Any two members at different places compare. */
  predicate Comparable<T>(less: (T, T) -> bool, xs: seq<T>) {
    forall i, j | 0 <= i < j < |xs| :: less(xs[i], xs[j]) || less(xs[j], xs[i])
  }

  lemma TailMembers<T(!new)>(less: (T, T) -> bool, a: seq<T>, x: T)
    requires StrictOrder(less) && Ordered(less, a) && a != []
    ensures x in a[1..] <==> x in a && x != a[0]
  {
  }

  /** Ordered sequences with the same members are equal. */
  lemma {:induction false} OrderedEqual<T(!new)>(less: (T, T) -> bool, a: seq<T>, b: seq<T>)
    requires StrictOrder(less) && Ordered(less, a) && Ordered(less, b)
    requires forall x :: x in a <==> x in b
    ensures a == b
  {
    assert a != [] ==> a[0] in b;
    assert b != [] ==> b[0] in a;
    if a != [] && b != [] {
      var i :| 0 <= i < |b| && b[i] == a[0];
      var j :| 0 <= j < |a| && a[j] == b[0];
      forall x ensures x in a[1..] <==> x in b[1..] { TailMembers(less, a, x); TailMembers(less, b, x); }
      OrderedEqual(less, a[1..], b[1..]);
      assert a == [a[0]] + a[1..] && b == [b[0]] + b[1..];
    }
  }

  function Inserted<T>(less: (T, T) -> bool, x: T, xs: seq<T>): (r: seq<T>)
    ensures multiset(r) == multiset([x] + xs)
  {
    if xs == [] || less(x, xs[0]) then [x] + xs
    else
      assert xs == [xs[0]] + xs[1..];
      [xs[0]] + Inserted(less, x, xs[1..])
  }

  /** Python's `sorted(xs, key=...)` for keys that differ. */
  function Sorted<T>(less: (T, T) -> bool, xs: seq<T>): (r: seq<T>)
    ensures multiset(r) == multiset(xs)
  {
    if xs == [] then []
    else
      assert xs == [xs[0]] + xs[1..];
      Inserted(less, xs[0], Sorted(less, xs[1..]))
  }

  lemma MembersOf<T>(a: seq<T>, b: seq<T>, x: T)
    requires multiset(a) == multiset(b)
    ensures x in a <==> x in b
  {
    assert x in a <==> x in multiset(a);
    assert x in b <==> x in multiset(b);
  }

  lemma {:induction false} InsertedOrdered<T(!new)>(less: (T, T) -> bool, x: T, xs: seq<T>)
    requires StrictOrder(less) && Ordered(less, xs)
    requires forall y | y in xs :: less(x, y) || less(y, x)
    ensures Ordered(less, Inserted(less, x, xs))
  {
    if xs == [] {
    } else if less(x, xs[0]) {
      forall i | 1 <= i < |xs| ensures less(x, xs[i]) { assert less(xs[0], xs[i]); }
    } else {
      var tail := Inserted(less, x, xs[1..]);
      assert xs[0] in xs;
      InsertedOrdered(less, x, xs[1..]);
      forall i | 0 <= i < |tail| ensures less(xs[0], tail[i]) {
        MembersOf(tail, [x] + xs[1..], tail[i]);
        if tail[i] != x {
          var j :| 0 <= j < |xs| - 1 && xs[1..][j] == tail[i];
          assert less(xs[0], xs[j + 1]);
        }
      }
    }
  }

  lemma {:induction false} SortedOrdered<T(!new)>(less: (T, T) -> bool, xs: seq<T>)
    requires StrictOrder(less) && Comparable(less, xs)
    ensures Ordered(less, Sorted(less, xs))
  {
    if xs != [] {
      SortedOrdered(less, xs[1..]);
      var rest := Sorted(less, xs[1..]);
      forall y | y in rest ensures less(xs[0], y) || less(y, xs[0]) {
        MembersOf(rest, xs[1..], y);
        var j :| 0 <= j < |xs| - 1 && xs[1..][j] == y;
        assert xs[j + 1] == y;
      }
      InsertedOrdered(less, xs[0], rest);
    }
  }

  /** The sorted form depends on the members only. */
  lemma SortedPermuted<T(!new)>(less: (T, T) -> bool, a: seq<T>, b: seq<T>)
    requires StrictOrder(less) && Comparable(less, a) && Comparable(less, b)
    requires multiset(a) == multiset(b)
    ensures Sorted(less, a) == Sorted(less, b)
  {
    SortedOrdered(less, a);
    SortedOrdered(less, b);
    forall x ensures x in Sorted(less, a) <==> x in Sorted(less, b) {
      MembersOf(Sorted(less, a), Sorted(less, b), x);
    }
    OrderedEqual(less, Sorted(less, a), Sorted(less, b));
  }
}
