/**
 Attesting the public rooms of one commit while the site may be redeployed: polling until the judged
 commit or a proven descendant is served, reading the rooms, and reading the revision once more.
 Every read of the site is one tick; what is served at a tick and what a read returns are parameters.
 */
module Attestation {
  import opened Prelude

  type Commit = string

  datatype Verdict = Exact | Superseded | Unproven

  /**
   What a read returns: nothing usable, the served revision, or a page with its digest that meets the contract of
   its route or not.
   */
  datatype Reply = Broken | Revision(commit: Commit) | Page(holds: bool, digest: nat)

  /** The site, and the Git repository as seen from where the attestation runs. */
  datatype World = World(
    serves: nat -> Commit,
    replies: nat -> Reply,
    isSha: Commit -> bool,
    ancestor: (Commit, Commit) -> bool,
    proves: (Commit, Commit) -> bool,
    mainView: nat -> Commit)

  /** Ancestry is a partial order, and Git proves nothing that is not so. */
  ghost predicate SoundGit(w: World) {
    && (forall a :: w.ancestor(a, a))
    && (forall a, b :: w.ancestor(a, b) && w.ancestor(b, a) ==> a == b)
    && (forall a, b, c :: w.ancestor(a, b) && w.ancestor(b, c) ==> w.ancestor(a, c))
    && forall a, b :: w.proves(a, b) ==> w.ancestor(a, b)
  }

  /** The revision the site names is the one it serves. */
  ghost predicate Honest(w: World) {
    forall t :: w.replies(t).Revision? ==> w.replies(t).commit == w.serves(t)
  }

  /** Deployments only move forward. */
  ghost predicate Advancing(w: World) {
    forall s, t | s <= t :: w.ancestor(w.serves(s), w.serves(t))
  }

  function Classify(w: World, view: Commit, expected: Commit, observed: Commit): Verdict {
    if observed == expected then Exact
    else if !w.isSha(observed) || !w.isSha(expected) then Unproven
    else if w.proves(expected, observed) && w.proves(observed, view) then Superseded
    else Unproven
  }

  /** SUPERSEDED is a proof: a strict descendant of the judged commit that is on main. */
  lemma SupersededIsDescendant(w: World, view: Commit, tip: Commit, expected: Commit, observed: Commit)
    requires SoundGit(w) && w.ancestor(view, tip) && Classify(w, view, expected, observed) == Superseded
    ensures observed != expected && w.ancestor(expected, observed) && w.ancestor(observed, tip)
    ensures !w.ancestor(observed, expected)
  {
  }

  /** With an older view of main the verdict is the same or UNPROVEN; Git is taken to answer fully. */
  lemma StaleViewOnlyWeakens(w: World, stale: Commit, current: Commit, expected: Commit, observed: Commit)
    requires SoundGit(w) && w.ancestor(stale, current)
    requires forall a, b :: w.ancestor(a, b) ==> w.proves(a, b)
    ensures Classify(w, stale, expected, observed) == Classify(w, current, expected, observed)
            || (Classify(w, stale, expected, observed) == Unproven
                && Classify(w, current, expected, observed) == Superseded)
  {
  }

  // ---------------------------------------------------------------------- polling

  /** The first tick from `start` on that returned what the read at `t` returned. */
  function FirstSeen(w: World, start: nat, t: nat): (j: nat)
    requires start <= t
    ensures start <= j <= t && w.replies(j) == w.replies(t)
    ensures forall i | start <= i < j :: w.replies(i) != w.replies(t)
    decreases t - start
  {
    if w.replies(start) == w.replies(t) then start else FirstSeen(w, start + 1, t)
  }

  /** A revision keeps the verdict of the poll that saw it first. */
  function VerdictAt(w: World, expected: Commit, start: nat, t: nat): Verdict
    requires start <= t
  {
    if !w.replies(t).Revision? then Unproven
    else Classify(w, w.mainView(FirstSeen(w, start, t)), expected, w.replies(t).commit)
  }

  /** The first poll from `t` on with a conclusive verdict, or the end of the polls. */
  function Conclusive(w: World, expected: Commit, start: nat, t: nat, end: nat): (p: nat)
    requires start <= t <= end
    ensures t <= p <= end
    ensures p < end ==> VerdictAt(w, expected, start, p) != Unproven
    ensures forall i | t <= i < p :: VerdictAt(w, expected, start, i) == Unproven
    decreases end - t
  {
    if t == end || VerdictAt(w, expected, start, t) != Unproven then t
    else Conclusive(w, expected, start, t + 1, end)
  }

  /** The last revision read before `t`. */
  function LastSeen(w: World, start: nat, t: nat): Option<Commit>
    requires start <= t
    decreases t - start
  {
    if t == start then None
    else if w.replies(t - 1).Revision? then Some(w.replies(t - 1).commit)
    else LastSeen(w, start, t - 1)
  }

  /** Poll until the judged commit or a proven descendant is served or the polls run out. */
  method AwaitRevision(w: World, expected: Commit, start: nat, polls: nat)
    returns (verdict: Verdict, observed: Option<Commit>, tick: nat)
    requires polls >= 1
    ensures start < tick <= start + polls
    ensures verdict == VerdictAt(w, expected, start, tick - 1)
    ensures verdict == Unproven ==> tick == start + polls
    ensures Conclusive(w, expected, start, start, start + polls) == if verdict == Unproven then tick else tick - 1
    ensures observed == LastSeen(w, start, tick)
  {
    var verdicts: map<Commit, Verdict> := map[];
    tick, observed := start, None;
    while true
      invariant start <= tick < start + polls && observed == LastSeen(w, start, tick)
      invariant Conclusive(w, expected, start, start, start + polls)
             == Conclusive(w, expected, start, tick, start + polls)
      invariant forall t | start <= t < tick :: VerdictAt(w, expected, start, t) == Unproven
      invariant forall t | start <= t < tick && w.replies(t).Revision? :: w.replies(t).commit in verdicts
      invariant forall r | r in verdicts ::
        verdicts[r] == Unproven && exists t :: start <= t < tick && w.replies(t) == Revision(r)
      decreases start + polls - tick
    {
      var reply := w.replies(tick);
      verdict := Unproven;
      if reply.Revision? {
        var r := reply.commit;
        observed := Some(r);
        if r !in verdicts {
          assert FirstSeen(w, start, tick) == tick;
          verdicts := verdicts[r := Classify(w, w.mainView(tick), expected, r)];
        } else {
          SeenKeepsVerdict(w, expected, start, tick);
        }
        verdict := verdicts[r];
      }
      assert verdict == VerdictAt(w, expected, start, tick);
      tick := tick + 1;
      if verdict != Unproven || tick == start + polls { return; }
    }
  }

  /** A revision that was judged before is judged alike. */
  lemma SeenKeepsVerdict(w: World, expected: Commit, start: nat, t: nat)
    requires start <= t && w.replies(t).Revision?
    ensures var j := FirstSeen(w, start, t);
      FirstSeen(w, start, j) == j && VerdictAt(w, expected, start, t) == VerdictAt(w, expected, start, j)
  {
  }

  // ---------------------------------------------------------------------- capture

  /** The digests of the room of a vertical and of its profile. */
  datatype Room = Room(page: nat, profile: nat)

  const VERTICALS: nat := 6

  /** The number of reads of the capture: the catalog, then a room and a profile for each vertical. */
  const ROOM_READS: nat := 1 + 2 * VERTICALS

  predicate Holds(w: World, t: nat) { w.replies(t).Page? && w.replies(t).holds }

  /** The reads of the `v`-th vertical hold. */
  predicate HoldsFor(w: World, begin: nat, v: nat) { Holds(w, begin + 1 + 2 * v) && Holds(w, begin + 2 + 2 * v) }

  function RoomAt(w: World, begin: nat, v: nat): Room
    requires HoldsFor(w, begin, v)
  {
    Room(w.replies(begin + 1 + 2 * v).digest, w.replies(begin + 2 + 2 * v).digest)
  }

  /** The rooms recorded when up to `n` verticals are read and the first bad read ends it. */
  function Rooms(w: World, begin: nat, n: nat): (rooms: seq<Room>)
    ensures |rooms| <= n
    ensures forall v: nat | v < |rooms| :: HoldsFor(w, begin, v) && rooms[v] == RoomAt(w, begin, v)
    ensures |rooms| < n ==> !HoldsFor(w, begin, |rooms|)
  {
    if n == 0 then []
    else
      var front := Rooms(w, begin, n - 1);
      if |front| == n - 1 && HoldsFor(w, begin, n - 1) then front + [RoomAt(w, begin, n - 1)] else front
  }

  predicate PagesDiffer(rooms: seq<Room>) {
    forall u, v | 0 <= u < v < |rooms| :: rooms[u].page != rooms[v].page
  }

  /** Every read of the capture holds, and no two rooms are the same bytes. */
  predicate Captured(w: World, begin: nat) {
    && Holds(w, begin)
    && |Rooms(w, begin, VERTICALS)| == VERTICALS
    && PagesDiffer(Rooms(w, begin, VERTICALS))
  }

  function Pages(rooms: seq<Room>): set<nat> { set v | 0 <= v < |rooms| :: rooms[v].page }

  lemma {:induction false} PagesCount(rooms: seq<Room>)
    ensures |Pages(rooms)| <= |rooms|
    ensures |Pages(rooms)| == |rooms| <==> PagesDiffer(rooms)
  {
    if rooms != [] {
      hide PagesDiffer, Pages;
      PagesCount(rooms[..|rooms| - 1]);
      PagesGrow(rooms);
    } else {
      assert Pages(rooms) == {};
    }
  }

  lemma PagesGrow(rooms: seq<Room>)
    requires rooms != []
    ensures Pages(rooms) == Pages(rooms[..|rooms| - 1]) + {rooms[|rooms| - 1].page}
  {
    var n := |rooms| - 1;
    forall p ensures p in Pages(rooms) <==> p in Pages(rooms[..n]) || p == rooms[n].page {
      if p in Pages(rooms[..n]) {
        var v :| 0 <= v < n && rooms[..n][v].page == p;
        assert rooms[v].page == p;
      }
      if p in Pages(rooms) {
        var v :| 0 <= v < |rooms| && rooms[v].page == p;
        assert v < n ==> rooms[..n][v].page == p;
      }
    }
  }

  /** What was read of the catalog and the rooms, up to the first read that does not hold. */
  method CaptureRooms(w: World, begin: nat) returns (ok: bool, catalog: Option<nat>, rooms: seq<Room>)
    ensures ok <==> Captured(w, begin)
    ensures catalog == CatalogAt(w, begin)
    ensures rooms == RoomsFrom(w, begin)
  {
    rooms := [];
    if !Holds(w, begin) { return false, None, rooms; }
    catalog := Some(w.replies(begin).digest);
    var pages: set<nat> := {};
    for v := 0 to VERTICALS
      invariant rooms == Rooms(w, begin, v) && |rooms| == v && pages == Pages(rooms)
    {
      var tick := begin + 1 + 2 * v;
      if !Holds(w, tick) || !Holds(w, tick + 1) {
        RoomsEnd(w, begin, v, VERTICALS);
        return false, catalog, rooms;
      }
      rooms := rooms + [Room(w.replies(tick).digest, w.replies(tick + 1).digest)];
      PagesGrow(rooms);
      assert rooms[..v] == Rooms(w, begin, v);
      pages := pages + {w.replies(tick).digest};
    }
    PagesCount(rooms);
    ok := |pages| == VERTICALS;
  }

  lemma {:induction false} RoomsEnd(w: World, begin: nat, v: nat, n: nat)
    requires v <= n && |Rooms(w, begin, v)| == v && (v < n ==> !HoldsFor(w, begin, v))
    ensures Rooms(w, begin, n) == Rooms(w, begin, v)
  {
    if v < n { RoomsEnd(w, begin, v, n - 1); }
  }

  function CatalogAt(w: World, begin: nat): Option<nat> {
    if Holds(w, begin) then Some(w.replies(begin).digest) else None
  }

  function RoomsFrom(w: World, begin: nat): seq<Room> {
    if Holds(w, begin) then Rooms(w, begin, VERTICALS) else []
  }

  // ------------------------------------------------------------------- attestation

  datatype State = Verified | SupersededState | NotConverged | Failed

  datatype Report = Report(
    state: State, observed: Option<Commit>, after: Option<Commit>, supersededBy: Option<Commit>,
    catalog: Option<nat>, rooms: seq<Room>)

  /** The report once the judged commit was read at tick `p`: the capture, and the revision read after it. */
  function AfterExact(w: World, expected: Commit, p: nat): Report {
    var catalog, rooms := CatalogAt(w, p + 1), RoomsFrom(w, p + 1);
    var last := w.replies(p + 1 + ROOM_READS);
    if !Captured(w, p + 1) || !last.Revision? then Report(Failed, Some(expected), None, None, catalog, rooms)
    else if last.commit == expected then Report(Verified, Some(expected), Some(expected), None, catalog, rooms)
    else if Classify(w, w.mainView(p + 1 + ROOM_READS), expected, last.commit) == Superseded then
      Report(SupersededState, Some(expected), Some(last.commit), Some(last.commit), None, [])
    else Report(Failed, Some(expected), Some(last.commit), None, catalog, rooms)
  }

  function Attested(w: World, expected: Commit, start: nat, polls: nat): Report {
    var p := Conclusive(w, expected, start, start, start + polls);
    if p == start + polls then Report(NotConverged, LastSeen(w, start, p), None, None, None, [])
    else if VerdictAt(w, expected, start, p) == Superseded then
      var observed := Some(w.replies(p).commit);
      Report(SupersededState, observed, None, observed, None, [])
    else AfterExact(w, expected, p)
  }

  method Attest(w: World, expected: Commit, start: nat, polls: nat) returns (r: Report)
    requires polls >= 1
    ensures r == Attested(w, expected, start, polls)
  {
    hide Captured, Rooms, HoldsFor, FirstSeen, Conclusive;
    var verdict, observed, tick := AwaitRevision(w, expected, start, polls);
    if verdict == Superseded { return Report(SupersededState, observed, None, observed, None, []); }
    if verdict != Exact { return Report(NotConverged, observed, None, None, None, []); }
    var ok, catalog, rooms := CaptureRooms(w, tick);
    if !ok { return Report(Failed, observed, None, None, catalog, rooms); }
    tick := tick + ROOM_READS;
    var reply := w.replies(tick);
    if !reply.Revision? { return Report(Failed, observed, None, None, catalog, rooms); }
    var after := reply.commit;
    if after == expected { return Report(Verified, observed, Some(after), None, catalog, rooms); }
    if Classify(w, w.mainView(tick), expected, after) == Superseded {
      return Report(SupersededState, observed, Some(after), Some(after), None, []);
    }
    r := Report(Failed, observed, Some(after), None, catalog, rooms);
  }

  /** The first poll with a conclusive verdict. */
  predicate Ends(w: World, expected: Commit, start: nat, polls: nat, p: nat) {
    && start <= p < start + polls
    && VerdictAt(w, expected, start, p) != Unproven
    && forall t | start <= t < p :: VerdictAt(w, expected, start, t) == Unproven
  }

  /** The judged commit was read at `p`, the capture after it succeeded, and the last read names `commit`. */
  predicate Bracketed(w: World, expected: Commit, p: nat, commit: Commit) {
    && w.replies(p) == Revision(expected)
    && Captured(w, p + 1)
    && w.replies(p + 1 + ROOM_READS) == Revision(commit)
  }

  lemma EndsIsConclusive(w: World, expected: Commit, start: nat, polls: nat, p: nat)
    ensures Ends(w, expected, start, polls, p)
            <==> p == Conclusive(w, expected, start, start, start + polls) && p < start + polls
  {
    hide FirstSeen, VerdictAt;
    var q := Conclusive(w, expected, start, start, start + polls);
  }

  /** VERIFIED exactly when the polling ended on the judged commit and the last read names it again. */
  lemma VerifiedExactly(w: World, expected: Commit, start: nat, polls: nat)
    ensures Attested(w, expected, start, polls).state == Verified
            <==> exists p: nat :: Ends(w, expected, start, polls, p) && Bracketed(w, expected, p, expected)
  {
    hide Captured, FirstSeen, Conclusive, Ends, RoomsFrom, CatalogAt;
    var q := Conclusive(w, expected, start, start, start + polls);
    forall p: nat ensures Ends(w, expected, start, polls, p) <==> p == q && p < start + polls {
      EndsIsConclusive(w, expected, start, polls, p);
    }
    if q < start + polls && Bracketed(w, expected, q, expected) {
      assert Ends(w, expected, start, polls, q) && VerdictAt(w, expected, start, q) == Exact;
    }
  }

  /** The commit a report names as the one that supersedes was read at one of these two points. */
  predicate SupersededAt(w: World, expected: Commit, start: nat, p: nat, c: Commit) {
    || (w.replies(p) == Revision(c) && start <= p && VerdictAt(w, expected, start, p) == Superseded)
    || (Bracketed(w, expected, p, c) && Classify(w, w.mainView(p + 1 + ROOM_READS), expected, c) == Superseded)
  }

  /** SUPERSEDED by a commit exactly when the deciding read before or after the capture proves it so. */
  lemma SupersededExactly(w: World, expected: Commit, start: nat, polls: nat, c: Commit)
    ensures var r := Attested(w, expected, start, polls);
      && (r.state == SupersededState && r.supersededBy == Some(c)
          <==> exists p: nat :: Ends(w, expected, start, polls, p) && SupersededAt(w, expected, start, p, c))
      && (r.state == SupersededState <==> r.supersededBy.Some?)
      && (r.state == SupersededState ==> r.catalog.None? && r.rooms == [])
  {
    hide Captured, FirstSeen, Conclusive, Ends, RoomsFrom, CatalogAt;
    var q := Conclusive(w, expected, start, start, start + polls);
    forall p: nat ensures Ends(w, expected, start, polls, p) <==> p == q && p < start + polls {
      EndsIsConclusive(w, expected, start, polls, p);
    }
    if q < start + polls && SupersededAt(w, expected, start, q, c) {
      assert Ends(w, expected, start, polls, q);
    }
  }

  /** NOT_CONVERGED exactly when no poll was conclusive; then nothing was captured. */
  lemma NotConvergedExactly(w: World, expected: Commit, start: nat, polls: nat)
    ensures var r := Attested(w, expected, start, polls);
      && (r.state == NotConverged
          <==> forall t | start <= t < start + polls :: VerdictAt(w, expected, start, t) == Unproven)
      && (r.state == NotConverged ==> r.catalog.None? && r.rooms == [])
  {
    hide Captured, FirstSeen, Conclusive, RoomsFrom, CatalogAt;
    assert Conclusive(w, expected, start, start, start + polls) <= start + polls;
  }

  /** A superseding commit is a strict descendant of the judged one and on main. */
  lemma SupersedingIsProven(w: World, tip: Commit, expected: Commit, start: nat, polls: nat)
    requires SoundGit(w) && forall t :: w.ancestor(w.mainView(t), tip)
    requires Attested(w, expected, start, polls).state == SupersededState
    ensures var c := Attested(w, expected, start, polls).supersededBy;
      && c.Some? && c.value != expected
      && w.ancestor(expected, c.value) && w.ancestor(c.value, tip) && !w.ancestor(c.value, expected)
  {
    hide Captured, FirstSeen, Conclusive, Ends, SoundGit, Attested;
    var r := Attested(w, expected, start, polls);
    SupersededExactly(w, expected, start, polls, "");
    var c := r.supersededBy.value;
    SupersededExactly(w, expected, start, polls, c);
    var p: nat :| Ends(w, expected, start, polls, p) && SupersededAt(w, expected, start, p, c);
    if w.replies(p) == Revision(c) && VerdictAt(w, expected, start, p) == Superseded {
      SupersededIsDescendant(w, w.mainView(FirstSeen(w, start, p)), tip, expected, c);
    } else {
      SupersededIsDescendant(w, w.mainView(p + 1 + ROOM_READS), tip, expected, c);
    }
  }

  /** While deployments only move forward, every room of a verified report was served by the judged commit. */
  lemma VerifiedRoomsAreExact(w: World, expected: Commit, start: nat, polls: nat) returns (p: nat)
    requires SoundGit(w) && Honest(w) && Advancing(w)
    requires Attested(w, expected, start, polls).state == Verified
    ensures start <= p < start + polls
    ensures forall t | p <= t <= p + 1 + ROOM_READS :: w.serves(t) == expected
    ensures var rooms := Attested(w, expected, start, polls).rooms;
      && |rooms| == VERTICALS && PagesDiffer(rooms)
      && forall v: nat | v < VERTICALS :: HoldsFor(w, p + 1, v) && rooms[v] == RoomAt(w, p + 1, v)
  {
    hide FirstSeen, HoldsFor, RoomAt, SoundGit, Honest, Advancing;
    p := Conclusive(w, expected, start, start, start + polls);
    ServedBetween(w, expected, p, p + 1 + ROOM_READS);
  }

  lemma ServedBetween(w: World, expected: Commit, s: nat, u: nat)
    requires SoundGit(w) && Honest(w) && Advancing(w) && s <= u
    requires w.replies(s) == w.replies(u) == Revision(expected)
    ensures forall t | s <= t <= u :: w.serves(t) == expected
  {
    forall t | s <= t <= u ensures w.serves(t) == expected {
      assert w.ancestor(w.serves(s), w.serves(t)) && w.ancestor(w.serves(t), w.serves(u));
    }
  }

  /** Once a strict descendant is served the judged commit never is again. */
  lemma SupersededStays(w: World, expected: Commit, s: nat, t: nat)
    requires SoundGit(w) && Advancing(w) && s <= t
    requires w.serves(s) != expected && w.ancestor(expected, w.serves(s))
    ensures w.serves(t) != expected
  {
  }

  /** Another commit serves the rooms, between two reads that name the judged commit. */
  function RolledBack(expected: Commit, other: Commit): World {
    var last := 1 + ROOM_READS;
    World(t => if t == 0 || t == last then expected else other,
          (t: nat) => if t == 0 || t == last then Revision(expected) else Page(true, t),
          c => true, (a, b) => a == b, (a, b) => false, t => expected)
  }

  lemma RolledBackSite(expected: Commit, other: Commit)
    requires expected != other
    ensures var w := RolledBack(expected, other);
      && SoundGit(w) && Honest(w) && !Advancing(w)
      && forall t | 1 <= t <= ROOM_READS :: w.serves(t) == other
  {
    var w := RolledBack(expected, other);
    assert !w.ancestor(w.serves(0), w.serves(1));
  }

  lemma RolledBackCaptured(expected: Commit, other: Commit)
    ensures var w := RolledBack(expected, other);
      Captured(w, 1) && Holds(w, 1) && |Rooms(w, 1, VERTICALS)| == VERTICALS
  {
    var w := RolledBack(expected, other);
    assert forall v: nat | v < VERTICALS :: HoldsFor(w, 1, v);
    assert |Rooms(w, 1, VERTICALS)| == VERTICALS;
  }

  /** A site rolled back between the two revision reads is verified although another commit served every room. */
  lemma RollbackEscapes(expected: Commit, other: Commit)
    requires expected != other
    ensures var w := RolledBack(expected, other);
      && SoundGit(w) && Honest(w) && !Advancing(w)
      && Attested(w, expected, 0, 1).state == Verified
      && |Attested(w, expected, 0, 1).rooms| == VERTICALS
      && forall t | 1 <= t <= ROOM_READS :: w.serves(t) == other
  {
    hide Captured, Rooms, Holds, SoundGit, Honest, Advancing;
    RolledBackSite(expected, other);
    RolledBackCaptured(expected, other);
    var w := RolledBack(expected, other);
    assert VerdictAt(w, expected, 0, 0) == Exact;
  }
}
