/**
 What the fold over replayed events computes, said without the fold: a designation is live when the
 last event touching it added it. From this follow when the order of simultaneous events matters and
 what a CLEAR screening rests on.
 */
module LifecycleOrder {
  import opened Prelude
  import opened Chronology
  import opened Lifecycle

  function DeedOf(kind: Kind): Option<Deed> {
    if kind.DesignationAdded? then Some(Add) else if IsRemoval(kind) then Some(Remove) else None
  }

  /** The event adds or removes designation `d` of stream `k`. */
  predicate Touches(x: Setting, row: Row, k: Stream, d: string) {
    row.event.stream == k && DeedOf(row.event.kind).Some? && DesignationOf(x, row.event) == d
  }

  /** The index of the last event touching `d`, or -1. */
  function LastTouch(x: Setting, rows: seq<Row>, k: Stream, d: string): (i: int)
    ensures -1 <= i < |rows|
    ensures 0 <= i ==> Touches(x, rows[i], k, d)
    ensures forall j | i < j < |rows| :: !Touches(x, rows[j], k, d)
  {
    var n := |rows| - 1;
    if rows == [] then -1
    else if Touches(x, rows[n], k, d) then n
    else
      var i := LastTouch(x, rows[..n], k, d);
      assert forall j | i < j < n :: rows[j] == rows[..n][j];
      i
  }

  predicate Live(x: Setting, start: map<Stream, set<string>>, rows: seq<Row>, k: Stream, d: string) {
    var i := LastTouch(x, rows, k, d);
    if i < 0 then d in Lookup(start, k, {}) else DeedOf(rows[i].event.kind) == Some(Add)
  }

  /** Some event does `deed` to the designation of `op` at its instant. */
  ghost predicate Performed(x: Setting, rows: seq<Row>, op: Operation, deed: Deed) {
    exists i | 0 <= i < |rows| :: Performs(x, rows[i], op, deed)
  }

  predicate Performs(x: Setting, row: Row, op: Operation, deed: Deed) {
    Touches(x, row, op.stream, op.designation) && row.instant == op.instant && DeedOf(row.event.kind) == Some(deed)
  }

  lemma AdvanceActive(x: Setting, tally: Tally, row: Row, k: Stream, d: string)
    ensures d in Lookup(Advance(x, tally, row).active, k, {})
            <==> if Touches(x, row, k, d) then DeedOf(row.event.kind) == Some(Add)
                 else d in Lookup(tally.active, k, {})
  {
    hide DesignationOf, Noted;
  }

  lemma {:induction false} ActiveIsLive(x: Setting, start: Tally, rows: seq<Row>, k: Stream, d: string)
    ensures d in Lookup(Fold(x, start, rows).active, k, {}) <==> Live(x, start.active, rows, k, d)
  {
    hide Advance, Touches;
    if rows != [] {
      var n := |rows| - 1;
      ActiveIsLive(x, start, rows[..n], k, d);
      AdvanceActive(x, Fold(x, start, rows[..n]), rows[n], k, d);
    }
  }

  lemma AdvanceOperations(x: Setting, tally: Tally, row: Row, op: Operation, deed: Deed)
    ensures deed in Lookup(Advance(x, tally, row).operations, op, {})
            <==> deed in Lookup(tally.operations, op, {}) || Performs(x, row, op, deed)
  {
    hide DesignationOf;
  }

  lemma {:induction false} OperationsArePerformed(x: Setting, start: Tally, rows: seq<Row>, op: Operation, deed: Deed)
    requires start.operations == map[]
    ensures deed in Lookup(Fold(x, start, rows).operations, op, {}) <==> Performed(x, rows, op, deed)
  {
    hide Advance, Performs;
    if rows != [] {
      var n := |rows| - 1;
      OperationsArePerformed(x, start, rows[..n], op, deed);
      AdvanceOperations(x, Fold(x, start, rows[..n]), rows[n], op, deed);
    }
  }

  /** The reported ambiguities are exactly the designations both added and removed at one instant. */
  lemma AmbiguitiesExact(x: Setting, start: Tally, rows: seq<Row>, op: Operation)
    requires start.operations == map[]
    ensures op in Ambiguities(Fold(x, start, rows))
            <==> Performed(x, rows, op, Add) && Performed(x, rows, op, Remove)
  {
    hide Fold, Performed;
    OperationsArePerformed(x, start, rows, op, Add);
    OperationsArePerformed(x, start, rows, op, Remove);
    BothDeeds(Lookup(Fold(x, start, rows).operations, op, {}));
  }

  lemma BothDeeds(deeds: set<Deed>)
    ensures deeds == {Add, Remove} <==> Add in deeds && Remove in deeds
  {
    forall d | d in deeds ensures d in {Add, Remove} { assert d == Add || d == Remove; }
  }

  predicate Mentioned(rows: seq<Row>, k: Stream) {
    exists i | 0 <= i < |rows| :: rows[i].event.stream == k
  }

  lemma MentionedGrows(rows: seq<Row>, k: Stream)
    requires rows != []
    ensures Mentioned(rows, k) <==> Mentioned(rows[..|rows| - 1], k) || rows[|rows| - 1].event.stream == k
  {
  }

  lemma AdvanceStreams(x: Setting, tally: Tally, row: Row)
    ensures Advance(x, tally, row).active.Keys == tally.active.Keys + {row.event.stream}
    ensures Advance(x, tally, row).asOf.Keys == tally.asOf.Keys + {row.event.stream}
  {
    hide DesignationOf, Noted;
  }

  lemma {:induction false} StreamsExact(x: Setting, start: Tally, rows: seq<Row>, k: Stream)
    requires start.active.Keys == start.asOf.Keys
    ensures Fold(x, start, rows).active.Keys == Fold(x, start, rows).asOf.Keys
    ensures k in Fold(x, start, rows).active <==> k in start.active || Mentioned(rows, k)
  {
    hide Advance, Mentioned;
    if rows == [] {
      NoneMentioned(k);
    } else {
      var n := |rows| - 1;
      StreamsExact(x, start, rows[..n], k);
      AdvanceStreams(x, Fold(x, start, rows[..n]), rows[n]);
      MentionedGrows(rows, k);
    }
  }

  lemma NoneMentioned(k: Stream)
    ensures !Mentioned([], k)
  {
  }

  // ------------------------------------------------- the order of equal instants

  predicate Chronological(rows: seq<Row>) {
    forall i, j | 0 <= i < j < |rows| :: rows[i].instant <= rows[j].instant
  }

  ghost predicate Reordered(a: seq<Row>, b: seq<Row>) {
    Chronological(b) && forall r :: r in a <==> r in b
  }

  /** A later event touches the same designation again. */
  predicate Superseded(x: Setting, rows: seq<Row>, op: Operation) {
    exists i | 0 <= i < |rows| :: Touches(x, rows[i], op.stream, op.designation) && op.instant < rows[i].instant
  }

  ghost predicate TiesSettled(x: Setting, rows: seq<Row>) {
    forall op | Performed(x, rows, op, Add) && Performed(x, rows, op, Remove) :: Superseded(x, rows, op)
  }

  lemma LastTouchReordered(x: Setting, a: seq<Row>, b: seq<Row>, k: Stream, d: string)
    requires Chronological(a) && Reordered(a, b)
    ensures LastTouch(x, a, k, d) < 0 <==> LastTouch(x, b, k, d) < 0
    ensures LastTouch(x, a, k, d) >= 0 ==>
      a[LastTouch(x, a, k, d)].instant == b[LastTouch(x, b, k, d)].instant
  {
    hide Touches, LastTouch;
    var i, j := LastTouch(x, a, k, d), LastTouch(x, b, k, d);
    if 0 <= i { assert a[i] in b; var q :| 0 <= q < |b| && b[q] == a[i]; assert q <= j; }
    if 0 <= j { assert b[j] in a; var p :| 0 <= p < |a| && a[p] == b[j]; assert p <= i; }
  }

  lemma LiveReordered(x: Setting, start: map<Stream, set<string>>, a: seq<Row>, b: seq<Row>, k: Stream, d: string)
    requires Chronological(a) && Reordered(a, b) && TiesSettled(x, a)
    ensures Live(x, start, a, k, d) <==> Live(x, start, b, k, d)
  {
    hide LastTouch, DesignationOf;
    LastTouchReordered(x, a, b, k, d);
    var i, j := LastTouch(x, a, k, d), LastTouch(x, b, k, d);
    if 0 <= i && DeedOf(a[i].event.kind) != DeedOf(b[j].event.kind) {
      var op := Operation(k, d, a[i].instant);
      assert b[j] in a;
      var p :| 0 <= p < |a| && a[p] == b[j];
      assert Performs(x, a[i], op, DeedOf(a[i].event.kind).value);
      assert Performs(x, a[p], op, DeedOf(b[j].event.kind).value);
      SettledTie(x, a, op);
    }
  }

  lemma SettledTie(x: Setting, rows: seq<Row>, op: Operation)
    requires TiesSettled(x, rows) && Performed(x, rows, op, Add) && Performed(x, rows, op, Remove)
    ensures Superseded(x, rows, op)
  {
  }

  /** `a` with the event at `i` moved behind the one at `j`. */
  function Moved(a: seq<Row>, i: nat, j: nat): (b: seq<Row>)
    requires i < j < |a|
    ensures |b| == |a| && b[j] == a[i]
    ensures forall p | 0 <= p < i || j < p < |a| :: b[p] == a[p]
    ensures forall p | i <= p < j :: b[p] == a[p + 1]
  {
    a[..i] + a[i + 1..j + 1] + [a[i]] + a[j + 1..]
  }

  lemma MovedReordered(a: seq<Row>, i: nat, j: nat)
    requires i < j < |a| && Chronological(a) && a[i].instant == a[j].instant
    ensures Reordered(a, Moved(a, i, j))
  {
  }

  /** An unsettled tie: moving one of the two events makes the other outcome. */
  lemma TieMatters(x: Setting, start: map<Stream, set<string>>, a: seq<Row>, op: Operation) returns (b: seq<Row>)
    requires Chronological(a)
    requires Performed(x, a, op, Add) && Performed(x, a, op, Remove) && !Superseded(x, a, op)
    ensures Reordered(a, b)
    ensures Live(x, start, a, op.stream, op.designation) != Live(x, start, b, op.stream, op.designation)
  {
    hide DesignationOf;
    var k, d := op.stream, op.designation;
    var j := LastTouch(x, a, k, d);
    var other := if DeedOf(a[j].event.kind) == Some(Add) then Remove else Add;
    var i :| 0 <= i < |a| && Performs(x, a[i], op, other);
    assert i < j && a[j].instant == a[i].instant;
    b := Moved(a, i, j);
    MovedReordered(a, i, j);
    assert Touches(x, b[j], k, d);
    forall p | j < p < |b| ensures !Touches(x, b[p], k, d) { assert b[p] == a[p]; }
  }

  predicate SameActive(a: map<Stream, set<string>>, b: map<Stream, set<string>>) {
    a == b
  }

  lemma MentionedReordered(a: seq<Row>, b: seq<Row>, k: Stream)
    requires forall r | r in a :: r in b
    ensures Mentioned(a, k) ==> Mentioned(b, k)
  {
    if i :| 0 <= i < |a| && a[i].event.stream == k {
      assert a[i] in b;
      var j :| 0 <= j < |b| && b[j] == a[i];
    }
  }

  lemma ActiveReordered(x: Setting, start: Tally, a: seq<Row>, b: seq<Row>)
    requires start.active.Keys == start.asOf.Keys
    requires Chronological(a) && Reordered(a, b) && TiesSettled(x, a)
    ensures Fold(x, start, a).active == Fold(x, start, b).active
  {
    hide Fold, Live, TiesSettled, Chronological, Mentioned;
    var f, g := Fold(x, start, a).active, Fold(x, start, b).active;
    forall k ensures k in f <==> k in g {
      StreamsExact(x, start, a, k);
      StreamsExact(x, start, b, k);
      MentionedReordered(a, b, k);
      MentionedReordered(b, a, k);
    }
    forall k | k in f ensures f[k] == g[k] {
      forall d ensures d in f[k] <==> d in g[k] {
        ActiveIsLive(x, start, a, k, d);
        ActiveIsLive(x, start, b, k, d);
        LiveReordered(x, start.active, a, b, k, d);
      }
    }
  }

  /**
   Every order of the events that respects their instants gives the same active designations exactly
   when no reported ambiguity is the last word on its designation.
   */
  lemma OrderMattersExactly(x: Setting, start: Tally, a: seq<Row>)
    requires Chronological(a) && start.operations == map[] && start.active.Keys == start.asOf.Keys
    ensures (forall b | Reordered(a, b) :: SameActive(Fold(x, start, a).active, Fold(x, start, b).active))
            <==> (forall op | op in Ambiguities(Fold(x, start, a)) :: Superseded(x, a, op))
  {
    hide Fold, Live, Performed, Superseded, Chronological;
    forall op ensures op in Ambiguities(Fold(x, start, a))
                      <==> Performed(x, a, op, Add) && Performed(x, a, op, Remove) {
      AmbiguitiesExact(x, start, a, op);
    }
    if op :| op in Ambiguities(Fold(x, start, a)) && !Superseded(x, a, op) {
      var b := TieMatters(x, start.active, a, op);
      ActiveIsLive(x, start, a, op.stream, op.designation);
      ActiveIsLive(x, start, b, op.stream, op.designation);
      assert !SameActive(Fold(x, start, a).active, Fold(x, start, b).active);
    } else {
      forall b | Reordered(a, b) ensures SameActive(Fold(x, start, a).active, Fold(x, start, b).active) {
        ActiveReordered(x, start, a, b);
      }
    }
  }
}
