/** The replay seen from one stream: only its own events count, and they can be replayed in two parts. */
module LifecycleStreams {
  import opened Prelude
  import opened Chronology
  import opened Lifecycle
  import opened LifecycleScreening

  /** What the tally holds about one stream. */
  datatype View = View(active: Option<set<string>>, asOf: Option<int>, unmatched: seq<Removal>)

  function Found<K, V>(m: map<K, V>, k: K): Option<V> {
    if k in m then Some(m[k]) else None
  }

  function OrElse<V>(o: Option<V>, default: V): V {
    if o.Some? then o.value else default
  }

  function UnmatchedOf(removals: seq<Removal>, k: Stream): seq<Removal> {
    if removals == [] then []
    else
      var n := |removals| - 1;
      UnmatchedOf(removals[..n], k) + (if removals[n].stream == k then [removals[n]] else [])
  }

  function ViewOf(tally: Tally, k: Stream): View {
    View(Found(tally.active, k), Found(tally.asOf, k), UnmatchedOf(tally.unmatched, k))
  }

  /** The rows of one stream, in order. */
  function Of(rows: seq<Row>, k: Stream): seq<Row> {
    if rows == [] then []
    else
      var n := |rows| - 1;
      Of(rows[..n], k) + (if rows[n].event.stream == k then [rows[n]] else [])
  }

  function Step(x: Setting, v: View, row: Row): View {
    var e := row.event;
    var d := DesignationOf(x, e);
    var active := OrElse(v.active, {});
    var asOf := Some(Larger(OrElse(v.asOf, row.instant), row.instant));
    if e.kind.DesignationAdded? then View(Some(active + {d}), asOf, v.unmatched)
    else if IsRemoval(e.kind) then
      View(Some(active - {d}), asOf,
           if d in active then v.unmatched else v.unmatched + [Removal(e.stream, d, e.id)])
    else View(Some(active), asOf, v.unmatched)
  }

  function Walk(x: Setting, v: View, rows: seq<Row>): View {
    if rows == [] then v else Step(x, Walk(x, v, rows[..|rows| - 1]), rows[|rows| - 1])
  }

  lemma UnmatchedAppended(removals: seq<Removal>, r: Removal, k: Stream)
    ensures UnmatchedOf(removals + [r], k) == UnmatchedOf(removals, k) + (if r.stream == k then [r] else [])
  {
  }

  lemma AdvanceViewed(x: Setting, tally: Tally, row: Row, k: Stream)
    ensures ViewOf(Advance(x, tally, row), k)
            == if row.event.stream == k then Step(x, ViewOf(tally, k), row) else ViewOf(tally, k)
  {
    hide DesignationOf, Noted, UnmatchedOf;
    var e := row.event;
    UnmatchedAppended(tally.unmatched, Removal(e.stream, DesignationOf(x, e), e.id), k);
  }

  /** A stream's part of the tally depends on that stream's events alone. */
  lemma {:induction false} FoldViewed(x: Setting, start: Tally, rows: seq<Row>, k: Stream)
    ensures ViewOf(Fold(x, start, rows), k) == Walk(x, ViewOf(start, k), Of(rows, k))
  {
    hide Advance, ViewOf, Step;
    if rows != [] {
      var n := |rows| - 1;
      FoldViewed(x, start, rows[..n], k);
      AdvanceViewed(x, Fold(x, start, rows[..n]), rows[n], k);
      var front := Of(rows[..n], k);
      if rows[n].event.stream == k {
        assert (front + [rows[n]])[..|front|] == front;
      } else {
        assert front + [] == front;
      }
    }
  }

  lemma {:induction false} WalkConcat(x: Setting, v: View, p: seq<Row>, q: seq<Row>)
    ensures Walk(x, v, p + q) == Walk(x, Walk(x, v, p), q)
  {
    hide Step;
    if q == [] {
      assert p + q == p;
    } else {
      var n := |q| - 1;
      assert (p + q)[..|p + q| - 1] == p + q[..n];
      WalkConcat(x, v, p, q[..n]);
    }
  }

  /** Removals already reported stay in front; the rest of the walk does not look at them. */
  lemma {:induction false} WalkAfter(x: Setting, v: View, rows: seq<Row>)
    ensures Walk(x, v, rows) ==
            var w := Walk(x, v.(unmatched := []), rows); w.(unmatched := v.unmatched + w.unmatched)
  {
    hide DesignationOf;
    if rows != [] {
      var n := |rows| - 1;
      WalkAfter(x, v, rows[..n]);
    }
  }

  // ------------------------------------------------------ sorted rows of a stream

  predicate Lined(rows: seq<Row>) {
    forall i, j | 0 <= i < j < |rows| :: Before(SlotOf(rows[i]), SlotOf(rows[j]))
  }

  lemma {:induction false} OfMembers(rows: seq<Row>, k: Stream, r: Row)
    ensures r in Of(rows, k) <==> r in rows && r.event.stream == k
  {
    if rows != [] {
      var n := |rows| - 1;
      OfMembers(rows[..n], k, r);
      assert rows == rows[..n] + [rows[n]];
    }
  }

  lemma {:induction false} OfLined(rows: seq<Row>, k: Stream)
    requires Lined(rows)
    ensures Lined(Of(rows, k))
  {
    hide Before;
    if rows != [] {
      var n := |rows| - 1;
      var front := Of(rows[..n], k);
      OfLined(rows[..n], k);
      forall i | 0 <= i < |front| ensures Before(SlotOf(front[i]), SlotOf(rows[n])) {
        OfMembers(rows[..n], k, front[i]);
        var j :| 0 <= j < n && rows[..n][j] == front[i];
        assert rows[j] == front[i];
      }
    }
  }

  function SlotsOf(rows: seq<Row>): (s: seq<Slot>)
    ensures |s| == |rows| && forall i | 0 <= i < |s| :: s[i] == SlotOf(rows[i])
  {
    seq(|rows|, i requires 0 <= i < |rows| => SlotOf(rows[i]))
  }

  /** Lined-up rows with the same members are the same. */
  lemma LinedEqual(a: seq<Row>, b: seq<Row>)
    requires Lined(a) && Lined(b)
    requires forall r :: r in a <==> r in b
    ensures a == b
  {
    hide Before, SlotOf;
    var s, t := SlotsOf(a), SlotsOf(b);
    forall slot ensures slot in s <==> slot in t {
      if slot in s {
        var i :| 0 <= i < |s| && s[i] == slot;
        assert a[i] in b;
        var j :| 0 <= j < |b| && b[j] == a[i];
        assert t[j] == slot;
      }
      if slot in t {
        var i :| 0 <= i < |t| && t[i] == slot;
        assert b[i] in a;
        var j :| 0 <= j < |a| && a[j] == b[i];
        assert s[j] == slot;
      }
    }
    SortedEqual(s, t);
    forall i | 0 <= i < |a| ensures a[i] == b[i] {
      assert a[i] in b;
      var j :| 0 <= j < |b| && b[j] == a[i];
      assert t[j] == s[i] == t[i];
      BeforeTotal(t[i], t[i]);
    }
  }
}
