/** Datatypes and set-ordering facts shared by the other modules. */
module Prelude {
  import Sorting

  datatype Option<+T> = None | Some(value: T)

  predicate IsLeast(m: nat, s: set<nat>) {
    m in s && forall x | x in s :: m <= x
  }

  /** The smallest member of a nonempty set of numbers exists. */
  lemma {:induction false} LeastExists(s: set<nat>)
    requires s != {}
    ensures exists m :: IsLeast(m, s)
  {
    var m :| m in s;
    var rest := s - {m};
    if rest == {} {
      assert s == {m};
      assert IsLeast(m, s);
    } else {
      LeastExists(rest);
      var k :| IsLeast(k, rest);
      assert forall x | x in s :: x == m || x in rest;
      assert IsLeast(if m < k then m else k, s);
    }
  }

  predicate Increasing(xs: seq<nat>) {
    forall i, j | 0 <= i < j < |xs| :: xs[i] < xs[j]
  }

  function Least(s: set<nat>): (m: nat)
    requires s != {}
    ensures IsLeast(m, s)
  {
    LeastExists(s);
    var m :| IsLeast(m, s);
    m
  }

  lemma PrependLeast(m: nat, rest: seq<nat>)
    requires Increasing(rest) && forall i | 0 <= i < |rest| :: m < rest[i]
    ensures Increasing([m] + rest)
  {
  }

  /** The members of `s` in increasing order: Python's `sorted(set(...))`. */
  function Ascending(s: set<nat>): (r: seq<nat>)
    ensures forall x :: x in r <==> x in s
    ensures |r| == |s|
    ensures Increasing(r)
  {
    if s == {} then []
    else
      var m := Least(s);
      var rest := Ascending(s - {m});
      assert forall i | 0 <= i < |rest| :: rest[i] in rest;
      PrependLeast(m, rest);
      [m] + rest
  }

  function Elements<T>(xs: seq<T>): set<T> {
    set x | x in xs
  }

  lemma IncreasingEqual(a: seq<nat>, b: seq<nat>)
    requires Increasing(a) && Increasing(b)
    requires forall x :: x in a <==> x in b
    ensures a == b
  {
    Sorting.OrderedEqual((x: nat, y: nat) => x < y, a, b);
  }

  /** A strictly increasing sequence is the sorted form of its own element set. */
  lemma AscendingUnique(xs: seq<nat>)
    requires Increasing(xs)
    ensures Ascending(Elements(xs)) == xs
  {
    IncreasingEqual(Ascending(Elements(xs)), xs);
  }
}
