/** The order in which recorded events are replayed: by instant, then by text keys. */
module Chronology {
  import Sorting

  /** Python's `a < b` on text. */
  predicate Below(a: string, b: string) {
    b != "" && (a == "" || a[0] < b[0] || (a[0] == b[0] && Below(a[1..], b[1..])))
  }

  lemma {:induction false} BelowTotal(a: string, b: string)
    ensures a == b || Below(a, b) || Below(b, a)
    ensures !(Below(a, b) && Below(b, a))
    ensures a == b ==> !Below(a, b)
  {
    if a != "" && b != "" {
      BelowTotal(a[1..], b[1..]);
      assert a == [a[0]] + a[1..] && b == [b[0]] + b[1..];
    }
  }

  lemma {:induction false} BelowTransitive(a: string, b: string, c: string)
    requires Below(a, b) && Below(b, c)
    ensures Below(a, c)
  {
    if a != "" && a[0] == b[0] == c[0] {
      BelowTransitive(a[1..], b[1..], c[1..]);
    }
  }

  /** At the first place where the texts differ the first one ends or has the smaller character. */
  predicate TextBefore(a: string, b: string) {
    exists n: nat ::
      && n <= |a| && n < |b| && a[..n] == b[..n]
      && (n == |a| || a[n] < b[n])
  }

  lemma TextBeforeAt(a: string, b: string, n: nat)
    requires n <= |a| && n < |b| && a[..n] == b[..n] && (n == |a| || a[n] < b[n])
    ensures TextBefore(a, b)
  {
  }

  lemma TextBeforeTail(a: string, b: string)
    requires a != "" && b != "" && a[0] == b[0]
    ensures TextBefore(a, b) <==> TextBefore(a[1..], b[1..])
  {
    if TextBefore(a[1..], b[1..]) {
      var n: nat :| n <= |a[1..]| && n < |b[1..]| && a[1..][..n] == b[1..][..n]
                    && (n == |a[1..]| || a[1..][n] < b[1..][n]);
      assert a[..n + 1] == [a[0]] + a[1..][..n] && b[..n + 1] == [b[0]] + b[1..][..n];
      TextBeforeAt(a, b, n + 1);
    }
    if TextBefore(a, b) {
      var n: nat :| n <= |a| && n < |b| && a[..n] == b[..n] && (n == |a| || a[n] < b[n]);
      assert a[1..][..n - 1] == a[..n][1..] && b[1..][..n - 1] == b[..n][1..];
      TextBeforeAt(a[1..], b[1..], n - 1);
    }
  }

  lemma TextBeforeHead(a: string, b: string)
    requires a == "" || b == "" || a[0] != b[0]
    ensures TextBefore(a, b) <==> b != "" && (a == "" || a[0] < b[0])
  {
    if b != "" && (a == "" || a[0] < b[0]) { TextBeforeAt(a, b, 0); }
    if TextBefore(a, b) {
      var n: nat :| n <= |a| && n < |b| && a[..n] == b[..n] && (n == |a| || a[n] < b[n]);
      if n > 0 { assert a[..n][0] == b[..n][0]; }
    }
  }

  lemma {:induction false} BelowExactly(a: string, b: string)
    ensures Below(a, b) <==> TextBefore(a, b)
  {
    hide TextBefore;
    if a != "" && b != "" && a[0] == b[0] {
      TextBeforeTail(a, b);
      BelowExactly(a[1..], b[1..]);
    } else {
      TextBeforeHead(a, b);
    }
  }

  datatype Stream = Stream(entity: string, source: string)

  datatype Identity = Identity(stream: Stream, id: string)

  /** The sort key of a replayed event. */
  datatype Slot = Slot(instant: int, identity: Identity)

  predicate BelowIdentity(a: Identity, b: Identity) {
    || Below(a.stream.entity, b.stream.entity)
    || (a.stream.entity == b.stream.entity
        && (|| Below(a.stream.source, b.stream.source)
            || (a.stream.source == b.stream.source && Below(a.id, b.id))))
  }

  predicate Before(a: Slot, b: Slot) {
    a.instant < b.instant || (a.instant == b.instant && BelowIdentity(a.identity, b.identity))
  }

  lemma BelowIdentityTotal(a: Identity, b: Identity)
    ensures a == b || BelowIdentity(a, b) || BelowIdentity(b, a)
    ensures !(BelowIdentity(a, b) && BelowIdentity(b, a))
    ensures a == b ==> !BelowIdentity(a, b)
  {
    BelowTotal(a.stream.entity, b.stream.entity);
    BelowTotal(a.stream.source, b.stream.source);
    BelowTotal(a.id, b.id);
  }

  lemma BelowIdentityTransitive(a: Identity, b: Identity, c: Identity)
    requires BelowIdentity(a, b) && BelowIdentity(b, c)
    ensures BelowIdentity(a, c)
  {
    hide Below;
    if Below(a.stream.entity, b.stream.entity) && Below(b.stream.entity, c.stream.entity) {
      BelowTransitive(a.stream.entity, b.stream.entity, c.stream.entity);
    } else if a.stream.entity == b.stream.entity == c.stream.entity {
      if Below(a.stream.source, b.stream.source) && Below(b.stream.source, c.stream.source) {
        BelowTransitive(a.stream.source, b.stream.source, c.stream.source);
      } else if a.stream.source == b.stream.source == c.stream.source {
        BelowTransitive(a.id, b.id, c.id);
      }
    }
  }

  lemma BeforeTotal(a: Slot, b: Slot)
    ensures a == b || Before(a, b) || Before(b, a)
    ensures !(Before(a, b) && Before(b, a))
    ensures a == b ==> !Before(a, b)
  {
    hide BelowIdentity;
    BelowIdentityTotal(a.identity, b.identity);
  }

  lemma BeforeTransitive(a: Slot, b: Slot, c: Slot)
    requires Before(a, b) && Before(b, c)
    ensures Before(a, c)
  {
    hide BelowIdentity;
    if a.instant == b.instant == c.instant {
      BelowIdentityTransitive(a.identity, b.identity, c.identity);
    }
  }

  // ----------------------------------------------------------------- sorting

  predicate IsEarliest(m: Slot, s: set<Slot>) {
    m in s && forall x | x in s && x != m :: Before(m, x)
  }

  lemma {:induction false} EarliestExists(s: set<Slot>)
    requires s != {}
    ensures exists m :: IsEarliest(m, s)
  {
    hide Before;
    var m :| m in s;
    var rest := s - {m};
    if rest == {} {
      assert s == {m};
      assert IsEarliest(m, s);
    } else {
      EarliestExists(rest);
      var k :| IsEarliest(k, rest);
      BeforeTotal(m, k);
      if Before(m, k) {
        forall x | x in s && x != m && x != k ensures Before(m, x) { BeforeTransitive(m, k, x); }
        assert IsEarliest(m, s);
      } else {
        forall x | x in s && x != k ensures Before(k, x) { assert x == m || x in rest; }
        assert IsEarliest(k, s);
      }
    }
  }

  lemma EarliestUnique(m: Slot, k: Slot, s: set<Slot>)
    requires IsEarliest(m, s) && IsEarliest(k, s)
    ensures m == k
  {
    hide Before;
    BeforeTotal(m, k);
  }

  function Earliest(s: set<Slot>): (m: Slot)
    requires s != {}
    ensures IsEarliest(m, s)
  {
    EarliestExists(s);
    assert forall a, b | IsEarliest(a, s) && IsEarliest(b, s) :: a == b by {
      forall a, b | IsEarliest(a, s) && IsEarliest(b, s) ensures a == b { EarliestUnique(a, b, s); }
    }
    var m :| IsEarliest(m, s);
    m
  }

  predicate Sorted(xs: seq<Slot>) {
    forall i, j | 0 <= i < j < |xs| :: Before(xs[i], xs[j])
  }

  lemma PrependEarliest(m: Slot, rest: seq<Slot>)
    requires Sorted(rest) && forall i | 0 <= i < |rest| :: Before(m, rest[i])
    ensures Sorted([m] + rest)
  {
  }

  /** The members of `s` in replay order. */
  function Ordered(s: set<Slot>): (r: seq<Slot>)
    ensures forall x :: x in r <==> x in s
    ensures Sorted(r)
  {
    if s == {} then []
    else
      var m := Earliest(s);
      var rest := Ordered(s - {m});
      assert forall i | 0 <= i < |rest| :: rest[i] in rest;
      PrependEarliest(m, rest);
      [m] + rest
  }

  /** Sorted sequences with the same members are equal. */
  lemma SortedEqual(a: seq<Slot>, b: seq<Slot>)
    requires Sorted(a) && Sorted(b)
    requires forall x :: x in a <==> x in b
    ensures a == b
  {
    hide Before;
    forall x ensures !Before(x, x) { BeforeTotal(x, x); }
    forall x, y, z | Before(x, y) && Before(y, z) ensures Before(x, z) { BeforeTransitive(x, y, z); }
    Sorting.OrderedEqual(Before, a, b);
  }
}
