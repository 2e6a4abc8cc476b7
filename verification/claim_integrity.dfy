/**
 Review of claims against quoted passages: which anchors match, which repeat a passage already quoted
 under another document id, how much support a claim has, and when the whole is ready.
 */
module ClaimIntegrity {
  import opened Prelude
  import opened Sorting
  import Chronology

  type Digest = string

  datatype Document = Document(id: string, text: string, expected: Digest)

  datatype Relationship = Adverse | Context | Support

  datatype Anchor = Anchor(document: string, start: nat, end: nat, quote: string, relationship: Relationship)

  datatype Claim = Claim(id: string, statement: string, anchors: seq<Anchor>)

  datatype Request = Request(documents: seq<Document>, claims: seq<Claim>)

  datatype Status = Matched | DocumentUnavailable | DigestMismatch | SpanOutOfRange | QuoteMismatch

  type Hasher = string -> Digest

  // ------------------------------------------------------ validity of a request

  function KeyOf(a: Anchor): (string, nat, nat, Relationship) { (a.document, a.start, a.end, a.relationship) }

  predicate ClaimValid(claim: Claim) {
    && (forall a | a in claim.anchors :: a.start < a.end)
    && forall i, j | 0 <= i < j < |claim.anchors| :: KeyOf(claim.anchors[i]) != KeyOf(claim.anchors[j])
  }

  /** What the request models demand: ids are unique, and so are the anchors of each claim. */
  predicate RequestValid(r: Request) {
    r.claims != [] && UniqueDocuments(r.documents) && UniqueClaims(r.claims) && AllValid(r.claims)
  }

  predicate UniqueDocuments(documents: seq<Document>) {
    forall i, j | 0 <= i < j < |documents| :: documents[i].id != documents[j].id
  }

  predicate UniqueClaims(claims: seq<Claim>) {
    forall i, j | 0 <= i < j < |claims| :: claims[i].id != claims[j].id
  }

  predicate AllValid(claims: seq<Claim>) {
    forall c | c in claims :: ClaimValid(c)
  }

  // ------------------------------------------------------------------- orders

  function Rank(r: Relationship): nat {
    match r
    case Adverse => 0
    case Context => 1
    case Support => 2
  }

  predicate AnchorBefore(a: Anchor, b: Anchor) {
    || Chronology.Below(a.document, b.document)
    || (a.document == b.document
        && (|| a.start < b.start
            || (a.start == b.start
                && (a.end < b.end || (a.end == b.end && Rank(a.relationship) < Rank(b.relationship))))))
  }

  predicate ClaimBefore(a: Claim, b: Claim) { Chronology.Below(a.id, b.id) }

  lemma AnchorsOrdered()
    ensures StrictOrder(AnchorBefore)
  {
    hide Chronology.Below;
    forall a ensures !AnchorBefore(a, a) { Chronology.BelowTotal(a.document, a.document); }
    forall a, b, c | AnchorBefore(a, b) && AnchorBefore(b, c) ensures AnchorBefore(a, c) {
      if Chronology.Below(a.document, b.document) && Chronology.Below(b.document, c.document) {
        Chronology.BelowTransitive(a.document, b.document, c.document);
      }
    }
  }

  lemma ClaimsOrdered()
    ensures StrictOrder(ClaimBefore)
  {
    hide Chronology.Below;
    forall a ensures !ClaimBefore(a, a) { Chronology.BelowTotal(a.id, a.id); }
    forall a, b, c | ClaimBefore(a, b) && ClaimBefore(b, c) ensures ClaimBefore(a, c) {
      Chronology.BelowTransitive(a.id, b.id, c.id);
    }
  }

  lemma AnchorsCompare(claim: Claim)
    requires ClaimValid(claim)
    ensures Comparable(AnchorBefore, claim.anchors)
  {
    hide Chronology.Below;
    forall i, j | 0 <= i < j < |claim.anchors|
      ensures AnchorBefore(claim.anchors[i], claim.anchors[j]) || AnchorBefore(claim.anchors[j], claim.anchors[i])
    {
      assert KeyOf(claim.anchors[i]) != KeyOf(claim.anchors[j]);
      Chronology.BelowTotal(claim.anchors[i].document, claim.anchors[j].document);
    }
  }

  // ------------------------------------------------------------- anchors and rows

  function Library(documents: seq<Document>): map<string, Document> {
    if documents == [] then map[]
    else Library(documents[..|documents| - 1])[documents[|documents| - 1].id := documents[|documents| - 1]]
  }

  function StatusOf(h: Hasher, docs: map<string, Document>, a: Anchor): Status
    requires a.start < a.end
  {
    if a.document !in docs then DocumentUnavailable
    else
      var doc := docs[a.document];
      if h(doc.text) != doc.expected then DigestMismatch
      else if a.end > |doc.text| then SpanOutOfRange
      else if doc.text[a.start..a.end] != a.quote then QuoteMismatch
      else Matched
  }

  /** What an anchor quotes, whatever id its document goes by. */
  datatype Passage = Passage(content: Digest, start: nat, end: nat)

  function PassageOf(h: Hasher, docs: map<string, Document>, a: Anchor): Passage {
    Passage(if a.document in docs then h(docs[a.document].text) else "UNAVAILABLE", a.start, a.end)
  }

  predicate IsMatched(h: Hasher, docs: map<string, Document>, a: Anchor) {
    a.start < a.end && StatusOf(h, docs, a) == Matched
  }

  /** The matched passages quoted in one relationship. */
  function Passages(h: Hasher, docs: map<string, Document>, anchors: seq<Anchor>, r: Relationship): set<Passage> {
    set a | a in anchors && a.relationship == r && IsMatched(h, docs, a) :: PassageOf(h, docs, a)
  }

  predicate SameClass(h: Hasher, docs: map<string, Document>, a: Anchor, b: Anchor) {
    a.relationship == b.relationship && PassageOf(h, docs, a) == PassageOf(h, docs, b)
  }

  /** The anchor repeats a passage that an earlier one quotes in the same relationship. */
  predicate Repeats(h: Hasher, docs: map<string, Document>, anchors: seq<Anchor>, i: nat)
    requires i < |anchors|
  {
    IsMatched(h, docs, anchors[i])
    && exists j | 0 <= j < i :: IsMatched(h, docs, anchors[j]) && SameClass(h, docs, anchors[i], anchors[j])
  }

  datatype AnchorRow = AnchorRow(anchor: Anchor, passage: Passage, status: Status, duplicate: bool)

  datatype ClaimRow = ClaimRow(
    id: string, statement: Digest, supporting: nat, adverse: nat, anchors: seq<AnchorRow>)

  function AnchorRows(h: Hasher, docs: map<string, Document>, anchors: seq<Anchor>, n: nat): (rows: seq<AnchorRow>)
    requires n <= |anchors| && forall a | a in anchors :: a.start < a.end
    ensures |rows| == n
    ensures forall i | 0 <= i < n ::
      rows[i] == AnchorRow(anchors[i], PassageOf(h, docs, anchors[i]), StatusOf(h, docs, anchors[i]),
                           Repeats(h, docs, anchors, i))
  {
    seq(n, i requires 0 <= i < n =>
      AnchorRow(anchors[i], PassageOf(h, docs, anchors[i]), StatusOf(h, docs, anchors[i]),
                Repeats(h, docs, anchors, i)))
  }

  lemma SortedSpans(claim: Claim)
    requires ClaimValid(claim)
    ensures forall a | a in Sorted(AnchorBefore, claim.anchors) :: a.start < a.end
  {
    forall a | a in Sorted(AnchorBefore, claim.anchors) ensures a.start < a.end {
      MembersOf(Sorted(AnchorBefore, claim.anchors), claim.anchors, a);
    }
  }

  function RowOf(h: Hasher, docs: map<string, Document>, claim: Claim): ClaimRow
    requires ClaimValid(claim)
  {
    var sorted := Sorted(AnchorBefore, claim.anchors);
    SortedSpans(claim);
    ClaimRow(claim.id, h(claim.statement), |Passages(h, docs, sorted, Support)|, |Passages(h, docs, sorted, Adverse)|,
             AnchorRows(h, docs, sorted, |sorted|))
  }

  function Failures(rows: seq<AnchorRow>): nat {
    if rows == [] then 0
    else Failures(rows[..|rows| - 1]) + (if rows[|rows| - 1].status != Matched then 1 else 0)
  }

  /** One claim: its anchors in order, with the passages seen so far. */
  method ReviewClaim(h: Hasher, docs: map<string, Document>, claim: Claim) returns (row: ClaimRow, errors: nat)
    requires ClaimValid(claim)
    ensures row == RowOf(h, docs, claim) && errors == Failures(row.anchors)
  {
    hide Passages, PassageOf, StatusOf, Repeats, Sorted, AnchorRows, Failures;
    var anchors := Sorted(AnchorBefore, claim.anchors);
    SortedSpans(claim);
    NoPassages(h, docs, anchors);
    var rows: seq<AnchorRow> := [];
    var supporting: set<Passage>, adverse: set<Passage> := {}, {};
    var seen: set<(Passage, Relationship)> := {};
    errors := 0;
    for i := 0 to |anchors|
      invariant rows == AnchorRows(h, docs, anchors, i)
      invariant supporting == Passages(h, docs, anchors[..i], Support)
      invariant adverse == Passages(h, docs, anchors[..i], Adverse)
      invariant forall p, r :: (p, r) in seen <==> p in Passages(h, docs, anchors[..i], r)
      invariant errors == Failures(rows)
    {
      var a := anchors[i];
      assert a in anchors && a.start < a.end;
      var status := StatusOf(h, docs, a);
      var passage := PassageOf(h, docs, a);
      var duplicate := status == Matched && (passage, a.relationship) in seen;
      RepeatsSeen(h, docs, anchors, i);
      forall r { PassagesGrow(h, docs, anchors, i, r); }
      if status == Matched {
        seen := seen + {(passage, a.relationship)};
        if a.relationship == Support {
          supporting := supporting + {passage};
        } else if a.relationship == Adverse {
          adverse := adverse + {passage};
        }
      } else {
        errors := errors + 1;
      }
      FailuresGrow(rows, AnchorRow(a, passage, status, duplicate));
      rows := rows + [AnchorRow(a, passage, status, duplicate)];
    }
    assert anchors[..|anchors|] == anchors;
    row := ClaimRow(claim.id, h(claim.statement), |supporting|, |adverse|, rows);
  }

  lemma NoPassages(h: Hasher, docs: map<string, Document>, anchors: seq<Anchor>)
    requires forall a | a in anchors :: a.start < a.end
    ensures forall r :: Passages(h, docs, anchors[..0], r) == {}
    ensures AnchorRows(h, docs, anchors, 0) == [] && Failures([]) == 0
  {
  }

  lemma FailuresGrow(rows: seq<AnchorRow>, row: AnchorRow)
    ensures Failures(rows + [row]) == Failures(rows) + (if row.status != Matched then 1 else 0)
  {
  }

  lemma RepeatsSeen(h: Hasher, docs: map<string, Document>, anchors: seq<Anchor>, i: nat)
    requires i < |anchors|
    ensures Repeats(h, docs, anchors, i) <==>
            IsMatched(h, docs, anchors[i])
            && PassageOf(h, docs, anchors[i]) in Passages(h, docs, anchors[..i], anchors[i].relationship)
  {
  }

  lemma PassagesGrow(h: Hasher, docs: map<string, Document>, anchors: seq<Anchor>, i: nat, r: Relationship)
    requires i < |anchors|
    ensures Passages(h, docs, anchors[..i + 1], r)
            == if r == anchors[i].relationship && IsMatched(h, docs, anchors[i])
               then Passages(h, docs, anchors[..i], r) + {PassageOf(h, docs, anchors[i])}
               else Passages(h, docs, anchors[..i], r)
  {
  }

  // -------------------------------------------------------------- the whole review

  datatype Blocker = SourceUnbound | DocumentIntegrityFailure | AnchorIntegrityFailure | UnanchoredClaims

  /** `documents` says of each document id whether its digest matches. */
  datatype Review = Review(
    documents: map<string, (Digest, bool)>, rows: seq<ClaimRow>, anchored: nat, failed: nat, contents: nat,
    blockers: seq<Blocker>)

  function DocumentResults(h: Hasher, docs: map<string, Document>): map<string, (Digest, bool)> {
    map id | id in docs :: (h(docs[id].text), h(docs[id].text) == docs[id].expected)
  }

  function RowsOf(h: Hasher, docs: map<string, Document>, claims: seq<Claim>): (rows: seq<ClaimRow>)
    requires AllValid(claims)
    ensures |rows| == |claims| && forall i | 0 <= i < |rows| :: rows[i] == RowOf(h, docs, claims[i])
  {
    seq(|claims|, i requires 0 <= i < |claims| => RowOf(h, docs, claims[i]))
  }

  function Anchored(rows: seq<ClaimRow>): nat {
    if rows == [] then 0 else Anchored(rows[..|rows| - 1]) + (if rows[|rows| - 1].supporting > 0 then 1 else 0)
  }

  function Failed(rows: seq<ClaimRow>): nat {
    if rows == [] then 0 else Failed(rows[..|rows| - 1]) + Failures(rows[|rows| - 1].anchors)
  }

  function ReviewOn(h: Hasher, bound: bool, docs: map<string, Document>, rows: seq<ClaimRow>): Review {
    var results := DocumentResults(h, docs);
    Review(results, rows, Anchored(rows), Failed(rows), |set id | id in docs :: h(docs[id].text)|,
           When(When(When(When([], !bound, SourceUnbound),
                          exists id | id in results :: !results[id].1, DocumentIntegrityFailure),
                     Failed(rows) > 0, AnchorIntegrityFailure),
                Anchored(rows) != |rows|, UnanchoredClaims))
  }

  function When(blockers: seq<Blocker>, applies: bool, blocker: Blocker): seq<Blocker> {
    if applies then blockers + [blocker] else blockers
  }

  function InOrder(claims: seq<Claim>): seq<Claim> { Sorted(ClaimBefore, claims) }

  lemma InOrderValid(claims: seq<Claim>)
    ensures forall c :: c in InOrder(claims) <==> c in claims
    ensures AllValid(claims) ==> AllValid(InOrder(claims))
  {
    hide ClaimValid, Sorted;
    forall c ensures c in InOrder(claims) <==> c in claims { MembersOf(InOrder(claims), claims, c); }
  }

  function ReviewOf(h: Hasher, bound: bool, r: Request): Review
    requires RequestValid(r)
  {
    var docs := Library(r.documents);
    InOrderValid(r.claims);
    ReviewOn(h, bound, docs, RowsOf(h, docs, InOrder(r.claims)))
  }

  lemma NothingCounted()
    ensures Anchored([]) == 0 && Failed([]) == 0
  {
  }

  lemma CountsGrow(rows: seq<ClaimRow>, row: ClaimRow)
    ensures Anchored(rows + [row]) == Anchored(rows) + (if row.supporting > 0 then 1 else 0)
    ensures Failed(rows + [row]) == Failed(rows) + Failures(row.anchors)
  {
  }

  method ReviewClaims(h: Hasher, bound: bool, r: Request) returns (review: Review)
    requires RequestValid(r)
    ensures review == ReviewOf(h, bound, r)
  {
    hide RowOf, InOrder, ClaimValid, Library, Anchored, Failed, Failures, DocumentResults;
    var docs := Library(r.documents);
    var claims := InOrder(r.claims);
    InOrderValid(r.claims);
    NothingCounted();
    var rows: seq<ClaimRow> := [];
    var anchored, failed := 0, 0;
    for i := 0 to |claims|
      invariant |rows| == i && rows == RowsOf(h, docs, claims)[..i]
      invariant anchored == Anchored(rows) && failed == Failed(rows)
    {
      assert claims[i] in claims;
      var row, errors := ReviewClaim(h, docs, claims[i]);
      if row.supporting > 0 { anchored := anchored + 1; }
      failed := failed + errors;
      CountsGrow(rows, row);
      rows := rows + [row];
    }
    assert rows == RowsOf(h, docs, claims);
    review := Conclude(h, bound, docs, rows, anchored, failed);
  }

  method Conclude(h: Hasher, bound: bool, docs: map<string, Document>, rows: seq<ClaimRow>, anchored: nat, failed: nat)
    returns (review: Review)
    requires anchored == Anchored(rows) && failed == Failed(rows)
    ensures review == ReviewOn(h, bound, docs, rows)
  {
    hide Anchored, Failed, DocumentResults;
    var results := DocumentResults(h, docs);
    var blockers: seq<Blocker> := [];
    if !bound { blockers := blockers + [SourceUnbound]; }
    if exists id | id in results :: !results[id].1 { blockers := blockers + [DocumentIntegrityFailure]; }
    if failed > 0 { blockers := blockers + [AnchorIntegrityFailure]; }
    if anchored != |rows| { blockers := blockers + [UnanchoredClaims]; }
    review := Review(results, rows, anchored, failed, |set id | id in docs :: h(docs[id].text)|, blockers);
  }

  // ------------------------------------------------------------- order and aliases

  lemma PassagesOfMembers(h: Hasher, docs: map<string, Document>, a: seq<Anchor>, b: seq<Anchor>, r: Relationship)
    requires forall x :: x in a <==> x in b
    ensures Passages(h, docs, a, r) == Passages(h, docs, b, r)
  {
  }

  /** Support and adverse counts are the numbers of distinct passages, whatever ids the documents go by. */
  lemma CountsArePassages(h: Hasher, docs: map<string, Document>, claim: Claim)
    requires ClaimValid(claim)
    ensures RowOf(h, docs, claim).supporting == |Passages(h, docs, claim.anchors, Support)|
    ensures RowOf(h, docs, claim).adverse == |Passages(h, docs, claim.anchors, Adverse)|
  {
    hide Passages, Sorted, AnchorRows;
    var sorted := Sorted(AnchorBefore, claim.anchors);
    forall x ensures x in sorted <==> x in claim.anchors { MembersOf(sorted, claim.anchors, x); }
    PassagesOfMembers(h, docs, sorted, claim.anchors, Support);
    PassagesOfMembers(h, docs, sorted, claim.anchors, Adverse);
  }

  /** Quoting a passage again under another document id adds neither support nor adversity. */
  lemma AliasAddsNothing(h: Hasher, docs: map<string, Document>, claim: Claim, alias: Anchor)
    requires ClaimValid(claim) && ClaimValid(claim.(anchors := claim.anchors + [alias]))
    requires IsMatched(h, docs, alias)
    requires exists a | a in claim.anchors :: IsMatched(h, docs, a) && SameClass(h, docs, alias, a)
    ensures var more := claim.(anchors := claim.anchors + [alias]);
      RowOf(h, docs, more).supporting == RowOf(h, docs, claim).supporting
      && RowOf(h, docs, more).adverse == RowOf(h, docs, claim).adverse
  {
    hide RowOf, IsMatched, PassageOf, ClaimValid;
    var anchors := claim.anchors;
    CountsArePassages(h, docs, claim);
    CountsArePassages(h, docs, claim.(anchors := anchors + [alias]));
    var a :| a in anchors && IsMatched(h, docs, a) && SameClass(h, docs, alias, a);
    assert forall x :: x in anchors + [alias] <==> x in anchors || x == alias;
    assert PassageOf(h, docs, a) in Passages(h, docs, anchors, alias.relationship);
    assert Passages(h, docs, anchors + [alias], Support) == Passages(h, docs, anchors, Support);
    assert Passages(h, docs, anchors + [alias], Adverse) == Passages(h, docs, anchors, Adverse);
  }

  /** The matched anchors of one relationship that repeat nothing. */
  function Originals(h: Hasher, docs: map<string, Document>, anchors: seq<Anchor>, r: Relationship, n: nat): nat
    requires n <= |anchors|
  {
    if n == 0 then 0
    else
      Originals(h, docs, anchors, r, n - 1)
      + (if IsMatched(h, docs, anchors[n - 1]) && anchors[n - 1].relationship == r
            && !Repeats(h, docs, anchors, n - 1) then 1 else 0)
  }

  lemma OneMore(s: set<Passage>, p: Passage)
    ensures |s + {p}| == |s| + (if p in s then 0 else 1)
  {
    assert p in s ==> s + {p} == s;
  }

  lemma PassagesStep(h: Hasher, docs: map<string, Document>, anchors: seq<Anchor>, r: Relationship, n: nat)
    requires 0 < n <= |anchors|
    ensures |Passages(h, docs, anchors[..n], r)|
            == |Passages(h, docs, anchors[..n - 1], r)|
               + (if IsMatched(h, docs, anchors[n - 1]) && anchors[n - 1].relationship == r
                     && !Repeats(h, docs, anchors, n - 1) then 1 else 0)
  {
    hide Passages, IsMatched, PassageOf, Repeats;
    PassagesGrow(h, docs, anchors, n - 1, r);
    RepeatsSeen(h, docs, anchors, n - 1);
    OneMore(Passages(h, docs, anchors[..n - 1], r), PassageOf(h, docs, anchors[n - 1]));
  }

  /** Each quoted passage has exactly one anchor that is not a duplicate: passages and originals are equally many. */
  lemma {:induction false} OneOriginalPerPassage(h: Hasher, docs: map<string, Document>, anchors: seq<Anchor>,
                                                 r: Relationship, n: nat)
    requires n <= |anchors|
    ensures |Passages(h, docs, anchors[..n], r)| == Originals(h, docs, anchors, r, n)
  {
    if n == 0 {
      assert Passages(h, docs, anchors[..0], r) == {};
    } else {
      hide Passages, IsMatched, Repeats;
      OneOriginalPerPassage(h, docs, anchors, r, n - 1);
      PassagesStep(h, docs, anchors, r, n);
    }
  }

  /** Among the anchors quoting one passage in one relationship at most one is not a duplicate. */
  lemma OriginalUnique(h: Hasher, docs: map<string, Document>, anchors: seq<Anchor>, i: nat, j: nat)
    requires i < |anchors| && j < |anchors|
    requires IsMatched(h, docs, anchors[i]) && IsMatched(h, docs, anchors[j])
    requires SameClass(h, docs, anchors[i], anchors[j])
    requires !Repeats(h, docs, anchors, i) && !Repeats(h, docs, anchors, j)
    ensures i == j
  {
  }

  /** Two claims that differ in the order of their anchors only. */
  predicate SameButOrder(a: Claim, b: Claim) {
    a.id == b.id && a.statement == b.statement && multiset(a.anchors) == multiset(b.anchors)
  }

  lemma RowIgnoresOrder(h: Hasher, docs: map<string, Document>, a: Claim, b: Claim)
    requires ClaimValid(a) && ClaimValid(b) && SameButOrder(a, b)
    ensures RowOf(h, docs, a) == RowOf(h, docs, b)
  {
    AnchorsOrdered();
    AnchorsCompare(a);
    AnchorsCompare(b);
    hide AnchorBefore, ClaimValid, Comparable, StrictOrder;
    SortedPermuted(AnchorBefore, a.anchors, b.anchors);
  }

  /** Every claim of `a` is in `b`, perhaps with its anchors in another order. */
  ghost predicate FoundIn(a: seq<Claim>, b: seq<Claim>) {
    forall c | c in a :: exists d :: d in b && SameButOrder(c, d)
  }

  ghost predicate Rearranged(a: Request, b: Request) {
    multiset(a.documents) == multiset(b.documents) && FoundIn(a.claims, b.claims) && FoundIn(b.claims, a.claims)
  }

  lemma {:induction false} LibraryExact(documents: seq<Document>, id: string)
    requires UniqueDocuments(documents)
    ensures id in Library(documents) ==> Library(documents)[id] in documents && Library(documents)[id].id == id
    ensures forall d | d in documents :: d.id == id ==> id in Library(documents) && Library(documents)[id] == d
  {
    if documents != [] {
      var n := |documents| - 1;
      LibraryExact(documents[..n], id);
      assert documents == documents[..n] + [documents[n]];
    }
  }

  lemma LibraryIgnoresOrder(a: seq<Document>, b: seq<Document>)
    requires UniqueDocuments(a) && UniqueDocuments(b)
    requires multiset(a) == multiset(b)
    ensures Library(a) == Library(b)
  {
    hide Library;
    forall id
      ensures id in Library(a) <==> id in Library(b)
      ensures id in Library(a) && id in Library(b) ==> Library(a)[id] == Library(b)[id]
    {
      LibraryExact(a, id);
      LibraryExact(b, id);
      if id in Library(a) { MembersOf(a, b, Library(a)[id]); }
      if id in Library(b) { MembersOf(a, b, Library(b)[id]); }
    }
  }

  predicate RowBefore(a: ClaimRow, b: ClaimRow) { Chronology.Below(a.id, b.id) }

  lemma ClaimsInOrder(claims: seq<Claim>)
    requires UniqueClaims(claims)
    ensures Ordered(ClaimBefore, InOrder(claims))
  {
    ClaimsOrdered();
    forall i, j | 0 <= i < j < |claims| ensures ClaimBefore(claims[i], claims[j]) || ClaimBefore(claims[j], claims[i]) {
      Chronology.BelowTotal(claims[i].id, claims[j].id);
    }
    hide ClaimBefore, StrictOrder;
    SortedOrdered(ClaimBefore, claims);
  }

  lemma RowsOrdered(h: Hasher, docs: map<string, Document>, claims: seq<Claim>)
    requires UniqueClaims(claims) && AllValid(InOrder(claims))
    ensures Ordered(RowBefore, RowsOf(h, docs, InOrder(claims)))
  {
    hide ClaimValid, Chronology.Below, RowOf, InOrder;
    ClaimsInOrder(claims);
    var sorted := InOrder(claims);
    var rows := RowsOf(h, docs, sorted);
    forall i, j | 0 <= i < j < |rows| ensures RowBefore(rows[i], rows[j]) {
      assert ClaimBefore(sorted[i], sorted[j]);
      RowId(h, docs, sorted[i]);
      RowId(h, docs, sorted[j]);
    }
  }

  lemma RowId(h: Hasher, docs: map<string, Document>, claim: Claim)
    requires ClaimValid(claim)
    ensures RowOf(h, docs, claim).id == claim.id
  {
  }

  lemma RowsStrict()
    ensures StrictOrder(RowBefore)
  {
    hide Chronology.Below;
    forall a ensures !RowBefore(a, a) { Chronology.BelowTotal(a.id, a.id); }
    forall a, b, c | RowBefore(a, b) && RowBefore(b, c) ensures RowBefore(a, c) {
      Chronology.BelowTransitive(a.id, b.id, c.id);
    }
  }

  /** Every row of the claims is a row of any rearrangement of them. */
  lemma RowsCarryOver(h: Hasher, docs: map<string, Document>, a: seq<Claim>, b: seq<Claim>, row: ClaimRow)
    requires AllValid(InOrder(a)) && AllValid(InOrder(b)) && FoundIn(a, b)
    requires row in RowsOf(h, docs, InOrder(a))
    ensures row in RowsOf(h, docs, InOrder(b))
  {
    hide ClaimValid, RowOf, InOrder;
    var s, t := InOrder(a), InOrder(b);
    InOrderValid(a);
    InOrderValid(b);
    var i :| 0 <= i < |s| && RowsOf(h, docs, s)[i] == row;
    assert s[i] in s;
    var d :| d in b && SameButOrder(s[i], d);
    var j :| 0 <= j < |t| && t[j] == d;
    RowIgnoresOrder(h, docs, s[i], d);
    assert RowsOf(h, docs, t)[j] == row;
  }

  lemma RowsIgnoreOrder(h: Hasher, docs: map<string, Document>, a: seq<Claim>, b: seq<Claim>)
    requires UniqueClaims(a) && UniqueClaims(b) && AllValid(InOrder(a)) && AllValid(InOrder(b))
    requires FoundIn(a, b) && FoundIn(b, a)
    ensures RowsOf(h, docs, InOrder(a)) == RowsOf(h, docs, InOrder(b))
  {
    hide AllValid, UniqueClaims, FoundIn, RowsOf, InOrder, Ordered, StrictOrder, RowBefore;
    var p, q := RowsOf(h, docs, InOrder(a)), RowsOf(h, docs, InOrder(b));
    RowsStrict();
    RowsOrdered(h, docs, a);
    RowsOrdered(h, docs, b);
    forall row ensures row in p <==> row in q {
      if row in p { RowsCarryOver(h, docs, a, b, row); }
      if row in q { RowsCarryOver(h, docs, b, a, row); }
    }
    OrderedEqual(RowBefore, p, q);
  }

  /** The review does not depend on the order of documents, claims or anchors. */
  lemma ReviewIgnoresOrder(h: Hasher, bound: bool, a: Request, b: Request)
    requires RequestValid(a) && RequestValid(b) && Rearranged(a, b)
    ensures ReviewOf(h, bound, a) == ReviewOf(h, bound, b)
  {
    hide AllValid, UniqueClaims, UniqueDocuments, FoundIn, RowsOf, InOrder, ReviewOn, Library;
    LibraryIgnoresOrder(a.documents, b.documents);
    InOrderValid(a.claims);
    InOrderValid(b.claims);
    RowsIgnoreOrder(h, Library(a.documents), a.claims, b.claims);
  }

  // ---------------------------------------------------------------------- READY

  lemma {:induction false} NoFailures(rows: seq<AnchorRow>)
    ensures Failures(rows) == 0 <==> forall i | 0 <= i < |rows| :: rows[i].status == Matched
  {
    if rows != [] {
      var n := |rows| - 1;
      NoFailures(rows[..n]);
      assert forall i | 0 <= i < n :: rows[..n][i] == rows[i];
    }
  }

  lemma {:induction false} NoneFailed(rows: seq<ClaimRow>)
    ensures Failed(rows) == 0 <==> forall i | 0 <= i < |rows| :: Failures(rows[i].anchors) == 0
  {
    hide Failures;
    if rows != [] {
      var n := |rows| - 1;
      NoneFailed(rows[..n]);
      assert forall i | 0 <= i < n :: rows[..n][i] == rows[i];
    }
  }

  lemma {:induction false} AllAnchored(rows: seq<ClaimRow>)
    ensures Anchored(rows) <= |rows|
    ensures Anchored(rows) == |rows| <==> forall i | 0 <= i < |rows| :: rows[i].supporting > 0
  {
    if rows != [] {
      var n := |rows| - 1;
      AllAnchored(rows[..n]);
      assert forall i | 0 <= i < n :: rows[..n][i] == rows[i];
    }
  }

  /** The claim's anchors all match and one of them supports it. */
  predicate WellAnchored(h: Hasher, docs: map<string, Document>, claim: Claim) {
    && (forall a | a in claim.anchors :: IsMatched(h, docs, a))
    && exists a | a in claim.anchors :: a.relationship == Support
  }

  lemma RowMatches(h: Hasher, docs: map<string, Document>, claim: Claim)
    requires ClaimValid(claim)
    ensures Failures(RowOf(h, docs, claim).anchors) == 0 <==> forall a | a in claim.anchors :: IsMatched(h, docs, a)
  {
    hide Sorted, StatusOf, PassageOf, Repeats, Failures, KeyOf;
    var sorted := Sorted(AnchorBefore, claim.anchors);
    SortedSpans(claim);
    var rows := AnchorRows(h, docs, sorted, |sorted|);
    hide AnchorRows;
    NoFailures(rows);
    forall x ensures x in sorted <==> x in claim.anchors { MembersOf(sorted, claim.anchors, x); }
    forall i | 0 <= i < |rows| ensures rows[i].status == Matched <==> IsMatched(h, docs, sorted[i]) {
      assert sorted[i] in sorted;
    }
    hide IsMatched;
    if forall i | 0 <= i < |rows| :: rows[i].status == Matched {
      forall a | a in claim.anchors ensures IsMatched(h, docs, a) {
        var i :| 0 <= i < |sorted| && sorted[i] == a;
      }
    } else {
      var i :| 0 <= i < |rows| && rows[i].status != Matched;
      assert sorted[i] in claim.anchors;
    }
  }

  lemma RowReady(h: Hasher, docs: map<string, Document>, claim: Claim)
    requires ClaimValid(claim)
    ensures Failures(RowOf(h, docs, claim).anchors) == 0 && RowOf(h, docs, claim).supporting > 0
            <==> WellAnchored(h, docs, claim)
  {
    hide RowOf, Failures, IsMatched, ClaimValid, Passages;
    RowMatches(h, docs, claim);
    CountsArePassages(h, docs, claim);
    if forall a | a in claim.anchors :: IsMatched(h, docs, a) {
      SupportPresent(h, docs, claim.anchors);
    }
  }

  lemma SupportPresent(h: Hasher, docs: map<string, Document>, anchors: seq<Anchor>)
    requires forall a | a in anchors :: IsMatched(h, docs, a)
    ensures |Passages(h, docs, anchors, Support)| > 0 <==> exists a | a in anchors :: a.relationship == Support
  {
    hide IsMatched, PassageOf;
    var passages := Passages(h, docs, anchors, Support);
    if a :| a in anchors && a.relationship == Support {
      assert PassageOf(h, docs, a) in passages;
    } else {
      assert passages == {};
    }
  }

  /**
   The review is READY exactly when the revision is bound, every document has its expected digest, every
   anchor matches and every claim has an anchor in its support.
   */
  lemma ReadyExactly(h: Hasher, bound: bool, r: Request)
    requires RequestValid(r)
    ensures ReviewOf(h, bound, r).blockers == []
            <==> && bound
                 && (forall d | d in r.documents :: h(d.text) == d.expected)
                 && (forall c | c in r.claims :: WellAnchored(h, Library(r.documents), c))
  {
    hide ClaimValid, RowOf, InOrder, WellAnchored, Library, Failures, Failed, Anchored, DocumentResults, ReviewOn;
    var docs := Library(r.documents);
    InOrderValid(r.claims);
    var claims := InOrder(r.claims);
    var rows := RowsOf(h, docs, claims);
    NoneFailed(rows);
    AllAnchored(rows);
    DocumentsMatch(h, r.documents);
    assert (forall c | c in claims :: WellAnchored(h, docs, c))
           <==> forall c | c in r.claims :: WellAnchored(h, docs, c);
    forall i | 0 <= i < |rows|
      ensures Failures(rows[i].anchors) == 0 && rows[i].supporting > 0 <==> WellAnchored(h, docs, claims[i])
    {
      assert claims[i] in claims;
      RowReady(h, docs, claims[i]);
    }
    BlockersEmpty(h, bound, docs, rows);
  }

  lemma DocumentsMatch(h: Hasher, documents: seq<Document>)
    requires UniqueDocuments(documents)
    ensures (forall id | id in DocumentResults(h, Library(documents)) :: DocumentResults(h, Library(documents))[id].1)
            <==> forall d | d in documents :: h(d.text) == d.expected
  {
    hide Library;
    var results := DocumentResults(h, Library(documents));
    forall id
      ensures id in Library(documents) ==> Library(documents)[id] in documents && Library(documents)[id].id == id
      ensures forall d | d in documents :: d.id == id ==> id in Library(documents) && Library(documents)[id] == d
    {
      LibraryExact(documents, id);
    }
    if forall id | id in results :: results[id].1 {
      forall d | d in documents ensures h(d.text) == d.expected { assert results[d.id].1; }
    }
  }

  lemma BlockersEmpty(h: Hasher, bound: bool, docs: map<string, Document>, rows: seq<ClaimRow>)
    ensures ReviewOn(h, bound, docs, rows).blockers == []
            <==> && bound && (forall id | id in DocumentResults(h, docs) :: DocumentResults(h, docs)[id].1)
                 && Failed(rows) == 0 && Anchored(rows) == |rows|
  {
  }
}
