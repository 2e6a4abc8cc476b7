/**
 The attestation read off the replies of the site: which state a report gets, with the thirteen reads of the
 capture and the proof that a commit supersedes written out.
 */
module AttestationReads {
  import opened Prelude
  import opened Attestation

  /** Git proves that `c` comes after the judged commit and is on the view of main. */
  predicate Descends(w: World, view: Commit, expected: Commit, c: Commit) {
    c != expected && w.isSha(c) && w.isSha(expected) && w.proves(expected, c) && w.proves(c, view)
  }

  lemma ClassifyExactly(w: World, view: Commit, expected: Commit, observed: Commit)
    ensures Classify(w, view, expected, observed) == Exact <==> observed == expected
    ensures Classify(w, view, expected, observed) == Superseded <==> Descends(w, view, expected, observed)
  {
  }

  /** Where Git answers fully, SUPERSEDED says: a strict descendant of the judged commit that is on the view of main. */
  lemma SupersededWhenGitAnswers(w: World, view: Commit, expected: Commit, observed: Commit)
    requires SoundGit(w) && forall a, b :: w.ancestor(a, b) ==> w.proves(a, b)
    requires w.isSha(expected) && w.isSha(observed)
    ensures Classify(w, view, expected, observed) == Superseded
            <==> && w.ancestor(expected, observed) && !w.ancestor(observed, expected)
                 && w.ancestor(observed, view)
    ensures Classify(w, view, expected, observed) == Unproven
            <==> && observed != expected
                 && (!w.ancestor(expected, observed) || !w.ancestor(observed, view))
  {
  }

  // ------------------------------------------------------------------------- polls

  /** The read at `t` names a descendant that Git proved when this revision was first read. */
  predicate NamesDescendant(w: World, expected: Commit, start: nat, t: nat) {
    && w.replies(t).Revision?
    && exists j: nat :: && start <= j <= t && w.replies(j) == w.replies(t)
                        && (forall i: nat | start <= i < j :: w.replies(i) != w.replies(t))
                        && Descends(w, w.mainView(j), expected, w.replies(t).commit)
  }

  /** Before `p` neither the judged commit nor a proven descendant was read. */
  predicate OpenUntil(w: World, expected: Commit, start: nat, p: nat) {
    forall t: nat | start <= t < p :: w.replies(t) != Revision(expected) && !NamesDescendant(w, expected, start, t)
  }

  lemma VerdictExactly(w: World, expected: Commit, start: nat, t: nat)
    requires start <= t
    ensures VerdictAt(w, expected, start, t) == Exact <==> w.replies(t) == Revision(expected)
    ensures VerdictAt(w, expected, start, t) == Superseded <==> NamesDescendant(w, expected, start, t)
  {
    hide Classify, Descends;
    if w.replies(t).Revision? {
      var c, f := w.replies(t).commit, FirstSeen(w, start, t);
      ClassifyExactly(w, w.mainView(f), expected, c);
      forall j: nat | && start <= j <= t && w.replies(j) == w.replies(t)
                      && (forall i: nat | start <= i < j :: w.replies(i) != w.replies(t))
        ensures j == f
      {
        assert !(f < j) && !(j < f);
      }
    }
  }

  lemma EndsExactly(w: World, expected: Commit, start: nat, polls: nat, p: nat)
    ensures Ends(w, expected, start, polls, p)
            <==> && start <= p < start + polls && OpenUntil(w, expected, start, p)
                 && (w.replies(p) == Revision(expected) || NamesDescendant(w, expected, start, p))
  {
    hide VerdictAt, NamesDescendant;
    forall t: nat | start <= t <= p
      ensures VerdictAt(w, expected, start, t) == Unproven
              <==> w.replies(t) != Revision(expected) && !NamesDescendant(w, expected, start, t)
    {
      VerdictExactly(w, expected, start, t);
    }
  }

  // ----------------------------------------------------------------------- capture

  /** The rooms of two verticals, read at every second tick, are the same bytes. */
  predicate SameRoom(w: World, p: nat, u: nat, v: nat) {
    && w.replies(p + 2 + 2 * u).Page? && w.replies(p + 2 + 2 * v).Page?
    && w.replies(p + 2 + 2 * u).digest == w.replies(p + 2 + 2 * v).digest
  }

  /** The catalog, the six rooms and their profiles are read in turn after `p`, and no two rooms are the same. */
  predicate CaptureHolds(w: World, p: nat) {
    && (forall t: nat | p + 1 <= t <= p + 13 :: w.replies(t).Page? && w.replies(t).holds)
    && forall u: nat, v: nat | u < v < 6 :: !SameRoom(w, p, u, v)
  }

  /** The first `n` verticals were read. */
  predicate ReadTo(w: World, p: nat, n: nat) {
    forall t: nat | p + 2 <= t < p + 2 + 2 * n :: w.replies(t).Page? && w.replies(t).holds
  }

  lemma {:induction false} RoomsRead(w: World, p: nat, n: nat)
    ensures |Rooms(w, p + 1, n)| == n <==> ReadTo(w, p, n)
    ensures |Rooms(w, p + 1, n)| < n ==> ReadTo(w, p, |Rooms(w, p + 1, n)|)
  {
    if n > 0 {
      RoomsRead(w, p, n - 1);
      assert ReadTo(w, p, n) <==> ReadTo(w, p, n - 1) && HoldsFor(w, p + 1, n - 1);
    }
  }

  lemma CapturedExactly(w: World, p: nat)
    ensures Captured(w, p + 1) <==> CaptureHolds(w, p)
  {
    RoomsRead(w, p, 6);
    var rooms := Rooms(w, p + 1, 6);
    assert Captured(w, p + 1) <==> Holds(w, p + 1) && |rooms| == 6 && PagesDiffer(rooms);
    hide Rooms, RoomAt, Captured;
    assert (Holds(w, p + 1) && ReadTo(w, p, 6))
           <==> forall t: nat | p + 1 <= t <= p + 13 :: w.replies(t).Page? && w.replies(t).holds;
    if Holds(w, p + 1) && |rooms| == 6 { RoomsDiffer(w, p, rooms); }
  }

  lemma RoomsDiffer(w: World, p: nat, rooms: seq<Room>)
    requires forall t: nat | p + 1 <= t <= p + 13 :: w.replies(t).Page? && w.replies(t).holds
    requires |rooms| == 6 && forall v: nat | v < 6 :: HoldsFor(w, p + 1, v) && rooms[v] == RoomAt(w, p + 1, v)
    ensures PagesDiffer(rooms) <==> CaptureHolds(w, p)
  {
    forall v: nat | v < 6 ensures rooms[v].page == w.replies(p + 2 + 2 * v).digest { RoomPage(w, p, v); }
    hide RoomAt, HoldsFor;
    forall u: nat, v: nat | u < v < 6 ensures rooms[u].page == rooms[v].page <==> SameRoom(w, p, u, v) {
    }
  }

  lemma RoomPage(w: World, p: nat, v: nat)
    requires HoldsFor(w, p + 1, v)
    ensures RoomAt(w, p + 1, v) == Room(w.replies(p + 2 + 2 * v).digest, w.replies(p + 3 + 2 * v).digest)
  {
  }

  // ----------------------------------------------------------------------- reports

  /** The judged commit is read at `p`, after no poll that was conclusive. */
  predicate ReadAt(w: World, expected: Commit, start: nat, polls: nat, p: nat) {
    start <= p < start + polls && OpenUntil(w, expected, start, p) && w.replies(p) == Revision(expected)
  }

  /** Which state a report gets: each exactly for its own kind of replies. */
  lemma StatesExactly(w: World, expected: Commit, start: nat, polls: nat)
    ensures var r := Attested(w, expected, start, polls);
      && (r.state == NotConverged <==> OpenUntil(w, expected, start, start + polls))
      && (r.state == Verified
          <==> exists p: nat :: && ReadAt(w, expected, start, polls, p) && CaptureHolds(w, p)
                                && w.replies(p + 14) == Revision(expected))
      && (r.state == Failed
          <==> exists p: nat :: ReadAt(w, expected, start, polls, p) && FailsAfter(w, expected, p))
  {
    hide *;
    OpenExactly(w, expected, start, start + polls);
    NotConvergedExactly(w, expected, start, polls);
    VerifiedReads(w, expected, start, polls);
    FailedExactly(w, expected, start, polls);
  }

  lemma OpenExactly(w: World, expected: Commit, start: nat, end: nat)
    ensures (forall t | start <= t < end :: VerdictAt(w, expected, start, t) == Unproven)
            <==> OpenUntil(w, expected, start, end)
  {
    hide VerdictAt, NamesDescendant;
    forall t: nat | start <= t < end
      ensures VerdictAt(w, expected, start, t) == Unproven
              <==> w.replies(t) != Revision(expected) && !NamesDescendant(w, expected, start, t)
    {
      VerdictExactly(w, expected, start, t);
    }
  }

  lemma VerifiedReads(w: World, expected: Commit, start: nat, polls: nat)
    ensures Attested(w, expected, start, polls).state == Verified
            <==> exists p: nat :: && ReadAt(w, expected, start, polls, p) && CaptureHolds(w, p)
                                  && w.replies(p + 14) == Revision(expected)
  {
    VerifiedExactly(w, expected, start, polls);
    hide Captured, CaptureHolds, NamesDescendant, Ends, OpenUntil, Attested;
    forall p: nat
      ensures Ends(w, expected, start, polls, p) && Bracketed(w, expected, p, expected)
              <==> && ReadAt(w, expected, start, polls, p) && CaptureHolds(w, p)
                   && w.replies(p + 14) == Revision(expected)
    {
      EndsExactly(w, expected, start, polls, p);
      CapturedExactly(w, p);
    }
  }

  /** A bad or repeated read, no revision after it, or another one that is no proven descendant. */
  predicate FailsAfter(w: World, expected: Commit, p: nat) {
    || !CaptureHolds(w, p) || !w.replies(p + 14).Revision?
    || (&& w.replies(p + 14).commit != expected
        && !Descends(w, w.mainView(p + 14), expected, w.replies(p + 14).commit))
  }

  lemma FailedExactly(w: World, expected: Commit, start: nat, polls: nat)
    ensures Attested(w, expected, start, polls).state == Failed
            <==> exists p: nat :: ReadAt(w, expected, start, polls, p) && FailsAfter(w, expected, p)
  {
    hide Captured, CaptureHolds, NamesDescendant, FirstSeen, VerdictAt, Conclusive, Rooms, Descends, Ends, OpenUntil;
    var q := Conclusive(w, expected, start, start, start + polls);
    forall p: nat ensures ReadAt(w, expected, start, polls, p)
                          <==> p == q && q < start + polls && w.replies(q) == Revision(expected)
    {
      EndsIsConclusive(w, expected, start, polls, p);
      EndsExactly(w, expected, start, polls, p);
    }
    if q < start + polls {
      assert ReadAt(w, expected, start, polls, q) <==> w.replies(q) == Revision(expected);
      VerdictExactly(w, expected, start, q);
      CapturedExactly(w, q);
      if w.replies(q + 14).Revision? {
        ClassifyExactly(w, w.mainView(q + 14), expected, w.replies(q + 14).commit);
      }
    }
  }

  /** The read at `p` ended the polling and names the descendant `c`, or the one after the capture does. */
  predicate SupersededBy(w: World, expected: Commit, start: nat, polls: nat, p: nat, c: Commit) {
    && start <= p < start + polls && OpenUntil(w, expected, start, p)
    && (|| (w.replies(p) == Revision(c) && NamesDescendant(w, expected, start, p))
        || (&& w.replies(p) == Revision(expected) && CaptureHolds(w, p)
            && w.replies(p + 14) == Revision(c) && Descends(w, w.mainView(p + 14), expected, c)))
  }

  /** Which commit a report names as the one that supersedes, and where it was read. */
  lemma SupersededReads(w: World, expected: Commit, start: nat, polls: nat, c: Commit)
    ensures Attested(w, expected, start, polls).supersededBy == Some(c)
            <==> exists p: nat :: SupersededBy(w, expected, start, polls, p, c)
  {
    SupersededExactly(w, expected, start, polls, c);
    forall p: nat
      ensures Ends(w, expected, start, polls, p) && SupersededAt(w, expected, start, p, c)
              <==> SupersededBy(w, expected, start, polls, p, c)
    {
      SupersededByExactly(w, expected, start, polls, p, c);
    }
    hide Ends, SupersededAt, SupersededBy;
  }

  lemma SupersededByExactly(w: World, expected: Commit, start: nat, polls: nat, p: nat, c: Commit)
    ensures Ends(w, expected, start, polls, p) && SupersededAt(w, expected, start, p, c)
            <==> SupersededBy(w, expected, start, polls, p, c)
  {
    hide Captured, CaptureHolds, NamesDescendant, VerdictAt, Ends, OpenUntil, Classify, Descends;
    EndsExactly(w, expected, start, polls, p);
    if start <= p {
      VerdictExactly(w, expected, start, p);
      CapturedExactly(w, p);
      ClassifyExactly(w, w.mainView(p + 14), expected, c);
    }
  }

  /** What a report of a commit that was read shows: both revisions, the catalog and the rooms with their digests. */
  lemma ReportShows(w: World, expected: Commit, start: nat, polls: nat)
    ensures var r := Attested(w, expected, start, polls);
      r.state == Verified || r.state == Failed ==>
        exists p: nat ::
          && ReadAt(w, expected, start, polls, p) && r.observed == Some(expected)
          && (r.catalog.Some? <==> w.replies(p + 1).Page? && w.replies(p + 1).holds)
          && (r.catalog.Some? ==> r.catalog.value == w.replies(p + 1).digest)
          && (r.after.Some? ==> w.replies(p + 14) == Revision(r.after.value))
          && |r.rooms| <= 6 && (r.state == Verified ==> |r.rooms| == 6)
          && forall v: nat | v < |r.rooms| ::
               && w.replies(p + 2 + 2 * v).Page? && w.replies(p + 3 + 2 * v).Page?
               && r.rooms[v] == Room(w.replies(p + 2 + 2 * v).digest, w.replies(p + 3 + 2 * v).digest)
  {
    hide NamesDescendant, FirstSeen, VerdictAt, Conclusive, Rooms, Descends, Ends, OpenUntil, RoomAt, Classify;
    var q := Conclusive(w, expected, start, start, start + polls);
    EndsIsConclusive(w, expected, start, polls, q);
    EndsExactly(w, expected, start, polls, q);
    if q < start + polls {
      assert ReadAt(w, expected, start, polls, q) <==> w.replies(q) == Revision(expected);
      VerdictExactly(w, expected, start, q);
      forall v: nat | v < |RoomsFrom(w, q + 1)| { RoomPage(w, q, v); }
    }
  }

  lemma {:induction false} LastSeenExactly(w: World, start: nat, t: nat, c: Commit)
    requires start <= t
    ensures LastSeen(w, start, t) == Some(c)
            <==> exists j: nat :: && start <= j < t && w.replies(j) == Revision(c)
                                  && forall i: nat | j < i < t :: !w.replies(i).Revision?
    decreases t - start
  {
    if t > start {
      LastSeenExactly(w, start, t - 1, c);
      if w.replies(t - 1) == Revision(c) {
        assert forall i: nat | t - 1 < i < t :: !w.replies(i).Revision?;
      }
    }
  }

  /** A report that never converged names the last revision that was read, if any was. */
  lemma NotConvergedNamesLast(w: World, expected: Commit, start: nat, polls: nat, c: Commit)
    requires Attested(w, expected, start, polls).state == NotConverged
    ensures Attested(w, expected, start, polls).observed == Some(c)
            <==> exists j: nat :: && start <= j < start + polls && w.replies(j) == Revision(c)
                                  && forall i: nat | j < i < start + polls :: !w.replies(i).Revision?
  {
    hide Captured, FirstSeen, LastSeen, Conclusive, RoomsFrom, CatalogAt;
    LastSeenExactly(w, start, start + polls, c);
  }

  // ------------------------------------------------------------------- one history

  /** A history that only grows, each commit a prefix of the next, and a site that serves it as it grows. */
  function Growing(expected: Commit, next: Commit, moved: nat): World {
    World(t => if t < moved then expected else next,
          (t: nat) => if 1 <= t <= 13 then Page(true, t) else Revision(if t < moved then expected else next),
          c => true, (a: Commit, b: Commit) => a <= b, (a: Commit, b: Commit) => a <= b, t => next)
  }

  lemma GrowingIsSound(expected: Commit, next: Commit, moved: nat)
    requires expected < next
    ensures var w := Growing(expected, next, moved); SoundGit(w) && Honest(w) && Advancing(w)
  {
  }

  /** A site that moves on during the capture is reported as superseded, one that moves on later as verified. */
  lemma GrowingReports(expected: Commit, next: Commit, moved: nat)
    requires expected < next
    ensures var w := Growing(expected, next, moved); SoundGit(w) && Honest(w) && Advancing(w)
    ensures moved <= 14 ==> Attested(Growing(expected, next, moved), expected, 0, 1).supersededBy == Some(next)
    ensures moved > 14 ==> Attested(Growing(expected, next, moved), expected, 0, 1).state == Verified
  {
    var w := Growing(expected, next, moved);
    GrowingIsSound(expected, next, moved);
    if moved <= 14 {
      assert SupersededBy(w, expected, 0, 1, 0, next);
    } else {
      assert ReadAt(w, expected, 0, 1, 0) && CaptureHolds(w, 0);
    }
    hide *;
    SupersededReads(w, expected, 0, 1, next);
    StatesExactly(w, expected, 0, 1);
  }
}
