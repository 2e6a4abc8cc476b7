/**
 The review of claims read off the request: which status each quotation gets, what is counted, and what each
 blocker says, with the comparison of spans and quotations written out.
 */
module ClaimSpans {
  import opened Prelude
  import opened Sorting
  import opened ClaimIntegrity
  import Chronology

  /** The anchor quotes exactly the span of the listed document, whose text has the expected digest. */
  predicate QuotesIn(h: Hasher, d: Document, a: Anchor) {
    && d.id == a.document && h(d.text) == d.expected
    && a.start < a.end && a.end <= |d.text| && d.text[a.start..a.end] == a.quote
  }

  predicate Quotes(h: Hasher, documents: seq<Document>, a: Anchor) {
    exists d :: d in documents && QuotesIn(h, d, a)
  }

  /** Which status an anchor gets: one for each thing that can be wrong with it, in this order. */
  predicate StatusSays(h: Hasher, documents: seq<Document>, a: Anchor, status: Status) {
    && (status == DocumentUnavailable <==> forall d | d in documents :: d.id != a.document)
    && forall d | d in documents && d.id == a.document ::
         && (status == DigestMismatch <==> h(d.text) != d.expected)
         && (status == SpanOutOfRange <==> h(d.text) == d.expected && |d.text| < a.end)
         && (status == QuoteMismatch
             <==> h(d.text) == d.expected && a.start < a.end <= |d.text| && d.text[a.start..a.end] != a.quote)
         && (status == Matched <==> QuotesIn(h, d, a))
  }

  lemma StatusExactly(h: Hasher, documents: seq<Document>, a: Anchor)
    requires UniqueDocuments(documents) && a.start < a.end
    ensures StatusSays(h, documents, a, StatusOf(h, Library(documents), a))
  {
    hide Library;
    LibraryExact(documents, a.document);
  }

  lemma MatchedExactly(h: Hasher, documents: seq<Document>, a: Anchor)
    requires UniqueDocuments(documents)
    ensures IsMatched(h, Library(documents), a) <==> Quotes(h, documents, a)
    ensures forall d | d in documents && QuotesIn(h, d, a) ::
      PassageOf(h, Library(documents), a) == Passage(h(d.text), a.start, a.end)
  {
    hide Library;
    LibraryExact(documents, a.document);
  }

  /** The span an anchor names, in the content of its document or, if no document is listed under its id, in none. */
  predicate PassageSays(h: Hasher, documents: seq<Document>, a: Anchor, p: Passage) {
    && p.start == a.start && p.end == a.end
    && (forall d | d in documents && d.id == a.document :: p.content == h(d.text))
    && ((forall d | d in documents :: d.id != a.document) ==> p.content == "UNAVAILABLE")
  }

  lemma PassageExactly(h: Hasher, documents: seq<Document>, a: Anchor)
    requires UniqueDocuments(documents)
    ensures PassageSays(h, documents, a, PassageOf(h, Library(documents), a))
  {
    hide Library;
    LibraryExact(documents, a.document);
  }

  /** The distinct spans, by content, that the anchors quote in one relationship. */
  function QuotedSpans(h: Hasher, documents: seq<Document>, anchors: seq<Anchor>, r: Relationship): set<Passage> {
    set d, a | d in documents && a in anchors && a.relationship == r && QuotesIn(h, d, a)
      :: Passage(h(d.text), a.start, a.end)
  }

  lemma SpansExactly(h: Hasher, documents: seq<Document>, anchors: seq<Anchor>, r: Relationship)
    requires UniqueDocuments(documents)
    ensures Passages(h, Library(documents), anchors, r) == QuotedSpans(h, documents, anchors, r)
  {
    hide Library, IsMatched, PassageOf;
    var docs := Library(documents);
    forall a { MatchedExactly(h, documents, a); }
    forall p ensures p in Passages(h, docs, anchors, r) <==> p in QuotedSpans(h, documents, anchors, r) {
      if p in Passages(h, docs, anchors, r) {
        var a :| a in anchors && a.relationship == r && IsMatched(h, docs, a) && PassageOf(h, docs, a) == p;
        var d :| d in documents && QuotesIn(h, d, a);
      }
    }
  }

  // ---------------------------------------------------------------------- validity

  lemma {:induction false} DistinctExactly<T>(s: seq<T>)
    ensures |Elements(s)| <= |s|
    ensures |Elements(s)| == |s| <==> forall i, j | 0 <= i < j < |s| :: s[i] != s[j]
  {
    if s == [] {
      assert Elements(s) == {};
    } else {
      var n := |s| - 1;
      DistinctExactly(s[..n]);
      assert s == s[..n] + [s[n]];
      assert Elements(s) == Elements(s[..n]) + {s[n]};
    }
  }

  function DocumentIds(r: Request): (ids: seq<string>)
    ensures |ids| == |r.documents| && forall i | 0 <= i < |ids| :: ids[i] == r.documents[i].id
  {
    seq(|r.documents|, i requires 0 <= i < |r.documents| => r.documents[i].id)
  }

  function ClaimIds(r: Request): (ids: seq<string>)
    ensures |ids| == |r.claims| && forall i | 0 <= i < |ids| :: ids[i] == r.claims[i].id
  {
    seq(|r.claims|, i requires 0 <= i < |r.claims| => r.claims[i].id)
  }

  function AnchorKeys(c: Claim): (keys: seq<(string, nat, nat, Relationship)>)
    ensures |keys| == |c.anchors|
    ensures forall i | 0 <= i < |keys| ::
      keys[i] == (c.anchors[i].document, c.anchors[i].start, c.anchors[i].end, c.anchors[i].relationship)
  {
    seq(|c.anchors|, i requires 0 <= i < |c.anchors| => KeyOf(c.anchors[i]))
  }

  /** A request is valid when it has a claim, no span is empty, and no id and no anchor of a claim is repeated. */
  lemma ValidExactly(r: Request)
    ensures RequestValid(r) <==>
      && |r.claims| >= 1
      && |Elements(DocumentIds(r))| == |r.documents| && |Elements(ClaimIds(r))| == |r.claims|
      && forall c | c in r.claims ::
           |Elements(AnchorKeys(c))| == |c.anchors| && forall a | a in c.anchors :: a.start < a.end
  {
    hide ClaimValid, Elements;
    DistinctExactly(DocumentIds(r));
    DistinctExactly(ClaimIds(r));
    forall c | c in r.claims
      ensures ClaimValid(c)
              <==> |Elements(AnchorKeys(c))| == |c.anchors| && forall a | a in c.anchors :: a.start < a.end
    {
      ClaimExactly(c);
    }
    var ids, names := DocumentIds(r), ClaimIds(r);
    assert UniqueDocuments(r.documents) <==> forall i, j | 0 <= i < j < |ids| :: ids[i] != ids[j];
    assert UniqueClaims(r.claims) <==> forall i, j | 0 <= i < j < |names| :: names[i] != names[j];
  }

  lemma ClaimExactly(c: Claim)
    ensures ClaimValid(c) <==> |Elements(AnchorKeys(c))| == |c.anchors| && forall a | a in c.anchors :: a.start < a.end
  {
    hide Elements;
    DistinctExactly(AnchorKeys(c));
    var keys := AnchorKeys(c);
    assert forall i | 0 <= i < |keys| :: keys[i] == KeyOf(c.anchors[i]);
    assert (forall i, j | 0 <= i < j < |c.anchors| :: KeyOf(c.anchors[i]) != KeyOf(c.anchors[j]))
           <==> forall i, j | 0 <= i < j < |keys| :: keys[i] != keys[j];
  }

  // ------------------------------------------------------------------------ rows

  /** In order of document, span and relationship. */
  predicate AnchorPrecedes(a: Anchor, b: Anchor) {
    || Chronology.TextBefore(a.document, b.document)
    || (a.document == b.document
        && (|| a.start < b.start
            || (a.start == b.start
                && (|| a.end < b.end
                    || (a.end == b.end
                        && (|| (a.relationship == Adverse && b.relationship != Adverse)
                            || (a.relationship == Context && b.relationship == Support)))))))
  }

  lemma PrecedesExactly(a: Anchor, b: Anchor)
    ensures AnchorBefore(a, b) <==> AnchorPrecedes(a, b)
  {
    hide Chronology.Below, Chronology.TextBefore;
    Chronology.BelowExactly(a.document, b.document);
  }

  /** One row says of each anchor of its claim, in order, what became of it, and counts the distinct spans. */
  ghost predicate RowSays(h: Hasher, documents: seq<Document>, claim: Claim, row: ClaimRow) {
    && row.id == claim.id && row.statement == h(claim.statement)
    && row.supporting == |QuotedSpans(h, documents, claim.anchors, Support)|
    && row.adverse == |QuotedSpans(h, documents, claim.anchors, Adverse)|
    && |row.anchors| == |claim.anchors|
    && (forall a :: a in claim.anchors <==> exists j :: 0 <= j < |row.anchors| && row.anchors[j].anchor == a)
    && (forall i, j | 0 <= i < j < |row.anchors| :: AnchorPrecedes(row.anchors[i].anchor, row.anchors[j].anchor))
    && forall j: nat | j < |row.anchors| :: AnchorSays(h, documents, row, j)
  }

  /** The status of the `j`-th anchor, and whether an earlier one quotes the same content there. */
  ghost predicate AnchorSays(h: Hasher, documents: seq<Document>, row: ClaimRow, j: nat)
    requires j < |row.anchors|
  {
    var r := row.anchors[j];
    && r.anchor.start < r.anchor.end
    && StatusSays(h, documents, r.anchor, r.status)
    && (r.duplicate <==>
          r.status == Matched
          && exists i :: && 0 <= i < j && row.anchors[i].status == Matched
                         && row.anchors[i].anchor.relationship == r.anchor.relationship
                         && row.anchors[i].passage == r.passage)
    && PassageSays(h, documents, r.anchor, r.passage)
  }

  lemma AnchorRowSays(h: Hasher, documents: seq<Document>, claim: Claim, j: nat)
    requires UniqueDocuments(documents) && ClaimValid(claim)
    requires j < |RowOf(h, Library(documents), claim).anchors|
    ensures AnchorSays(h, documents, RowOf(h, Library(documents), claim), j)
  {
    hide Library, Sorted, StatusOf, StatusSays, PassageOf, PassageSays, QuotesIn, KeyOf, Quotes;
    var docs := Library(documents);
    var sorted := Sorted(AnchorBefore, claim.anchors);
    SortedSpans(claim);
    assert sorted[j] in sorted;
    forall i | 0 <= i < |sorted| ensures IsMatched(h, docs, sorted[i]) <==> StatusOf(h, docs, sorted[i]) == Matched {
      assert sorted[i] in sorted;
    }
    PassageExactly(h, documents, sorted[j]);
    StatusExactly(h, documents, sorted[j]);
  }

  lemma RowExactly(h: Hasher, documents: seq<Document>, claim: Claim)
    requires UniqueDocuments(documents) && ClaimValid(claim)
    ensures RowSays(h, documents, claim, RowOf(h, Library(documents), claim))
  {
    hide Library, Sorted, StatusOf, PassageOf, Passages, QuotedSpans, AnchorSays, AnchorBefore, AnchorPrecedes, Repeats;
    var row := RowOf(h, Library(documents), claim);
    var sorted := Sorted(AnchorBefore, claim.anchors);
    CountsArePassages(h, Library(documents), claim);
    SpansExactly(h, documents, claim.anchors, Support);
    SpansExactly(h, documents, claim.anchors, Adverse);
    SortedSpans(claim);
    forall a ensures a in claim.anchors <==> exists j :: 0 <= j < |row.anchors| && row.anchors[j].anchor == a {
      MembersOf(sorted, claim.anchors, a);
      if a in sorted {
        var j :| 0 <= j < |sorted| && sorted[j] == a;
        assert row.anchors[j].anchor == a;
      }
    }
    assert |sorted| == |claim.anchors| by { SameSize(sorted, claim.anchors); }
    AnchorsOrdered();
    AnchorsCompare(claim);
    SortedOrdered(AnchorBefore, claim.anchors);
    forall i, j | 0 <= i < j < |row.anchors|
      ensures AnchorPrecedes(row.anchors[i].anchor, row.anchors[j].anchor)
    {
      PrecedesExactly(sorted[i], sorted[j]);
    }
    forall j: nat | j < |row.anchors| ensures AnchorSays(h, documents, row, j) {
      AnchorRowSays(h, documents, claim, j);
    }
  }

  lemma SameSize<T>(a: seq<T>, b: seq<T>)
    requires multiset(a) == multiset(b)
    ensures |a| == |b|
  {
    assert |a| == |multiset(a)| == |multiset(b)| == |b|;
  }

  lemma RowsInOrder(h: Hasher, docs: map<string, Document>, claims: seq<Claim>)
    requires AllValid(claims) && Ordered(ClaimBefore, claims)
    ensures var rows := RowsOf(h, docs, claims);
      forall i, j | 0 <= i < j < |rows| :: Chronology.TextBefore(rows[i].id, rows[j].id)
  {
    hide RowOf, ClaimValid, Chronology.TextBefore, Chronology.Below;
    var rows := RowsOf(h, docs, claims);
    forall i, j | 0 <= i < j < |rows| ensures Chronology.TextBefore(rows[i].id, rows[j].id) {
      assert claims[i] in claims && claims[j] in claims;
      RowId(h, docs, claims[i]);
      RowId(h, docs, claims[j]);
      assert ClaimBefore(claims[i], claims[j]);
      Chronology.BelowExactly(rows[i].id, rows[j].id);
    }
  }

  lemma SortedRowsSay(h: Hasher, documents: seq<Document>, claims: seq<Claim>)
    requires UniqueDocuments(documents) && AllValid(claims)
    ensures forall i | 0 <= i < |claims| :: RowSays(h, documents, claims[i], RowsOf(h, Library(documents), claims)[i])
  {
    hide Library, RowOf, RowSays, ClaimValid, UniqueDocuments;
    forall i | 0 <= i < |claims| ensures RowSays(h, documents, claims[i], RowsOf(h, Library(documents), claims)[i]) {
      assert claims[i] in claims;
      RowExactly(h, documents, claims[i]);
    }
  }

  lemma ReviewRows(h: Hasher, bound: bool, r: Request)
    requires RequestValid(r)
    ensures AllValid(InOrder(r.claims))
    ensures ReviewOf(h, bound, r).rows == RowsOf(h, Library(r.documents), InOrder(r.claims))
  {
    hide Library, RowOf, ClaimValid, InOrder, DocumentResults, Failed, Anchored, When;
    InOrderValid(r.claims);
  }

  /** The review has one row for each claim, in order of their ids, and each says what became of its anchors. */
  lemma RowsExactly(h: Hasher, bound: bool, r: Request)
    requires RequestValid(r)
    ensures var rows := ReviewOf(h, bound, r).rows;
      && |rows| == |r.claims|
      && (forall i, j | 0 <= i < j < |rows| :: Chronology.TextBefore(rows[i].id, rows[j].id))
      && (forall row | row in rows :: exists c :: c in r.claims && RowSays(h, r.documents, c, row))
      && forall c | c in r.claims :: exists i :: 0 <= i < |rows| && RowSays(h, r.documents, c, rows[i])
  {
    var claims := InOrder(r.claims);
    ReviewRows(h, bound, r);
    hide Library, RowSays, RowsOf, UniqueDocuments, UniqueClaims, Chronology.TextBefore, InOrder, ReviewOf, AllValid;
    var rows := ReviewOf(h, bound, r).rows;
    InOrderValid(r.claims);
    InOrderSize(r.claims);
    ClaimsInOrder(r.claims);
    RowsInOrder(h, Library(r.documents), claims);
    SortedRowsSay(h, r.documents, claims);
    Correspond(h, r.documents, r.claims, claims, rows);
  }

  lemma Correspond(h: Hasher, documents: seq<Document>, claims: seq<Claim>, sorted: seq<Claim>, rows: seq<ClaimRow>)
    requires forall c :: c in sorted <==> c in claims
    requires |rows| == |sorted| && forall i | 0 <= i < |rows| :: RowSays(h, documents, sorted[i], rows[i])
    ensures forall row | row in rows :: exists c :: c in claims && RowSays(h, documents, c, row)
    ensures forall c | c in claims :: exists i :: 0 <= i < |rows| && RowSays(h, documents, c, rows[i])
  {
    hide RowSays;
    forall row | row in rows ensures exists c :: c in claims && RowSays(h, documents, c, row) {
      var i :| 0 <= i < |rows| && rows[i] == row;
      assert sorted[i] in sorted;
    }
    forall c | c in claims ensures exists i :: 0 <= i < |rows| && RowSays(h, documents, c, rows[i]) {
      assert c in sorted;
      var i :| 0 <= i < |sorted| && sorted[i] == c;
    }
  }

  lemma InOrderSize(claims: seq<Claim>)
    ensures |InOrder(claims)| == |claims|
  {
    hide ClaimBefore;
    SameSize(InOrder(claims), claims);
  }

  // ----------------------------------------------------------------------- counts

  lemma {:induction false} FailuresCount(rows: seq<AnchorRow>)
    ensures Failures(rows) == |set j | 0 <= j < |rows| && rows[j].status != Matched|
  {
    var failed := set j | 0 <= j < |rows| && rows[j].status != Matched;
    if rows == [] {
      assert failed == {};
    } else {
      var n := |rows| - 1;
      FailuresCount(rows[..n]);
      var before := set j | 0 <= j < |rows[..n]| && rows[..n][j].status != Matched;
      assert failed == before + (if rows[n].status != Matched then {n} else {});
    }
  }

  /** The number of claims with a quoted support. */
  lemma {:induction false} AnchoredCount(rows: seq<ClaimRow>)
    ensures Anchored(rows) == |set i | 0 <= i < |rows| && rows[i].supporting > 0|
  {
    var anchored := set i | 0 <= i < |rows| && rows[i].supporting > 0;
    if rows == [] {
      assert anchored == {};
    } else {
      var n := |rows| - 1;
      AnchoredCount(rows[..n]);
      var before := set i | 0 <= i < |rows[..n]| && rows[..n][i].supporting > 0;
      assert anchored == before + (if rows[n].supporting > 0 then {n} else {});
    }
  }

  function Tagged<T>(n: int, s: set<T>): set<(int, T)> { set x | x in s :: (n, x) }

  lemma {:induction false} TaggedCount<T>(n: int, s: set<T>)
    ensures |Tagged(n, s)| == |s|
  {
    if s == {} {
      assert Tagged(n, s) == {};
    } else {
      var k :| k in s;
      TaggedCount(n, s - {k});
      assert Tagged(n, s) == Tagged(n, s - {k}) + {(n, k)};
    }
  }

  function UnmatchedIn(row: ClaimRow): set<int> {
    set j | 0 <= j < |row.anchors| && row.anchors[j].status != Matched
  }

  /** The places of the anchors that are not matched: claim and anchor. */
  function Unmatched(rows: seq<ClaimRow>): set<(int, int)> {
    set i, j | 0 <= i < |rows| && 0 <= j < |rows[i].anchors| && rows[i].anchors[j].status != Matched :: (i, j)
  }

  lemma UnmatchedGrows(rows: seq<ClaimRow>)
    requires rows != []
    ensures var n := |rows| - 1;
      && Unmatched(rows) == Unmatched(rows[..n]) + Tagged(n, UnmatchedIn(rows[n]))
      && Unmatched(rows[..n]) !! Tagged(n, UnmatchedIn(rows[n]))
  {
  }

  /** The number of anchors that are not matched, over all claims. */
  lemma {:induction false} FailedCount(rows: seq<ClaimRow>)
    ensures Failed(rows) == |Unmatched(rows)|
  {
    if rows == [] {
      assert Unmatched(rows) == {};
    } else {
      hide Unmatched, Failures, Tagged;
      var n := |rows| - 1;
      FailedCount(rows[..n]);
      FailuresCount(rows[n].anchors);
      UnmatchedGrows(rows);
      TaggedCount(n, UnmatchedIn(rows[n]));
    }
  }

  /** The totals of a review: what each document hashes to, and how many claims, anchors and contents are counted. */
  lemma TotalsOnRequest(h: Hasher, bound: bool, r: Request)
    requires RequestValid(r)
    ensures var review := ReviewOf(h, bound, r);
      && (forall id :: id in review.documents <==> exists d :: d in r.documents && d.id == id)
      && (forall d | d in r.documents ::
            d.id in review.documents && review.documents[d.id] == (h(d.text), h(d.text) == d.expected))
      && review.contents == |set d | d in r.documents :: h(d.text)|
      && review.anchored == |set i | 0 <= i < |review.rows| && review.rows[i].supporting > 0|
      && review.failed == |Unmatched(review.rows)|
  {
    hide RowsOf, InOrder, Unmatched, Failed, Anchored, Library, When, UniqueDocuments, ClaimValid;
    InOrderValid(r.claims);
    var rows := RowsOf(h, Library(r.documents), InOrder(r.claims));
    AnchoredCount(rows);
    FailedCount(rows);
    forall id { LibraryExact(r.documents, id); }
    var docs := Library(r.documents);
    var listed, hashed := set d | d in r.documents :: h(d.text), set id | id in docs :: h(docs[id].text);
    forall x ensures x in hashed <==> x in listed {
      if x in listed {
        var d :| d in r.documents && h(d.text) == x;
        assert d.id in docs && docs[d.id] == d;
      }
    }
    assert hashed == listed;
  }

  // ----------------------------------------------------------------------- verdict

  /**
   READY, read off the request: the revision is bound, every document has its expected digest, every anchor quotes
   exactly its span of a listed document, and every claim has an anchor in its support.
   */
  lemma ReadyOnRequest(h: Hasher, bound: bool, r: Request)
    requires RequestValid(r)
    ensures ReviewOf(h, bound, r).blockers == [] <==>
      && bound
      && (forall d | d in r.documents :: h(d.text) == d.expected)
      && (forall c, a | c in r.claims && a in c.anchors :: Quotes(h, r.documents, a))
      && (forall c | c in r.claims :: exists a :: a in c.anchors && a.relationship == Support)
  {
    hide Library, ReviewOf, Quotes, IsMatched, ClaimValid;
    ReadyExactly(h, bound, r);
    forall c, a | c in r.claims && a in c.anchors
      ensures IsMatched(h, Library(r.documents), a) <==> Quotes(h, r.documents, a)
    {
      MatchedExactly(h, r.documents, a);
    }
  }

  /** What each blocker of a review says. */
  lemma BlockersOnRequest(h: Hasher, bound: bool, r: Request)
    requires RequestValid(r)
    ensures var blockers := ReviewOf(h, bound, r).blockers;
      && (SourceUnbound in blockers <==> !bound)
      && (DocumentIntegrityFailure in blockers <==> exists d :: d in r.documents && h(d.text) != d.expected)
      && (AnchorIntegrityFailure in blockers
          <==> exists c, a :: c in r.claims && a in c.anchors && !Quotes(h, r.documents, a))
      && (UnanchoredClaims in blockers
          <==> exists c :: c in r.claims && QuotedSpans(h, r.documents, c.anchors, Support) == {})
  {
    hide Library, Quotes, QuotedSpans, ClaimValid, RowOf, InOrder, Failures, DocumentResults, Failed, Anchored,
         UniqueDocuments;
    var docs := Library(r.documents);
    var claims := InOrder(r.claims);
    InOrderValid(r.claims);
    var rows := RowsOf(h, docs, claims);
    DocumentsMatch(h, r.documents);
    assert (exists d :: d in r.documents && h(d.text) != d.expected)
           <==> !forall d | d in r.documents :: h(d.text) == d.expected;
    NoneFailed(rows);
    AllAnchored(rows);
    forall i | 0 <= i < |rows|
      ensures Failures(rows[i].anchors) == 0 <==> forall a | a in claims[i].anchors :: Quotes(h, r.documents, a)
      ensures rows[i].supporting > 0 <==> QuotedSpans(h, r.documents, claims[i].anchors, Support) != {}
    {
      assert claims[i] in claims;
      RowOnRequest(h, r.documents, claims[i]);
    }
    BlockersSay(h, bound, docs, rows);
    hide ReviewOn, RowsOf;
    assert ReviewOf(h, bound, r) == ReviewOn(h, bound, docs, rows);
    FromRows(h, r.documents, r.claims, claims);
  }

  lemma RowOnRequest(h: Hasher, documents: seq<Document>, claim: Claim)
    requires UniqueDocuments(documents) && ClaimValid(claim)
    ensures var row := RowOf(h, Library(documents), claim);
      && (Failures(row.anchors) == 0 <==> forall a | a in claim.anchors :: Quotes(h, documents, a))
      && (row.supporting > 0 <==> QuotedSpans(h, documents, claim.anchors, Support) != {})
  {
    hide Library, Quotes, QuotedSpans, ClaimValid, RowOf, Failures, UniqueDocuments, IsMatched, Passages;
    RowMatches(h, Library(documents), claim);
    CountsArePassages(h, Library(documents), claim);
    SpansExactly(h, documents, claim.anchors, Support);
    forall a { MatchedExactly(h, documents, a); }
  }

  lemma Listed(unbound: bool, documents: bool, anchors: bool, claims: bool)
    ensures var blockers := When(When(When(When([], unbound, SourceUnbound), documents, DocumentIntegrityFailure),
                                      anchors, AnchorIntegrityFailure), claims, UnanchoredClaims);
      && (SourceUnbound in blockers <==> unbound) && (DocumentIntegrityFailure in blockers <==> documents)
      && (AnchorIntegrityFailure in blockers <==> anchors) && (UnanchoredClaims in blockers <==> claims)
  {
    var one := When([], unbound, SourceUnbound);
    var two := When(one, documents, DocumentIntegrityFailure);
    var three := When(two, anchors, AnchorIntegrityFailure);
    hide When;
    Added([], unbound, SourceUnbound);
    Added(one, documents, DocumentIntegrityFailure);
    Added(two, anchors, AnchorIntegrityFailure);
    Added(three, claims, UnanchoredClaims);
  }

  lemma Added(blockers: seq<Blocker>, applies: bool, blocker: Blocker)
    ensures forall b :: b in When(blockers, applies, blocker) <==> b in blockers || (applies && b == blocker)
  {
  }

  lemma BlockersSay(h: Hasher, bound: bool, docs: map<string, Document>, rows: seq<ClaimRow>)
    ensures var blockers := ReviewOn(h, bound, docs, rows).blockers;
      && (SourceUnbound in blockers <==> !bound)
      && (DocumentIntegrityFailure in blockers
          <==> !forall id | id in DocumentResults(h, docs) :: DocumentResults(h, docs)[id].1)
      && (AnchorIntegrityFailure in blockers <==> Failed(rows) != 0)
      && (UnanchoredClaims in blockers <==> Anchored(rows) != |rows|)
  {
    hide DocumentResults, Failed, Anchored, When;
    var results := DocumentResults(h, docs);
    Listed(!bound, exists id | id in results :: !results[id].1, Failed(rows) > 0, Anchored(rows) != |rows|);
  }

  lemma FromRows(h: Hasher, documents: seq<Document>, claims: seq<Claim>, sorted: seq<Claim>)
    requires forall c :: c in sorted <==> c in claims
    ensures (forall i | 0 <= i < |sorted| :: forall a | a in sorted[i].anchors :: Quotes(h, documents, a))
            <==> !exists c, a :: c in claims && a in c.anchors && !Quotes(h, documents, a)
    ensures (forall i | 0 <= i < |sorted| :: QuotedSpans(h, documents, sorted[i].anchors, Support) != {})
            <==> !exists c :: c in claims && QuotedSpans(h, documents, c.anchors, Support) == {}
  {
    hide Quotes, QuotedSpans;
    forall c | c in claims ensures exists i :: 0 <= i < |sorted| && sorted[i] == c { assert c in sorted; }
    forall i | 0 <= i < |sorted| ensures sorted[i] in claims { assert sorted[i] in sorted; }
  }
}
