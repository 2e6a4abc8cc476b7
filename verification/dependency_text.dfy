/**
 The stored form of a dependency list, and the textual filter the eager pass applies to it: looking
 for the quoted payload member finds exactly the rows that depend on the payload.
 */
module DependencyText {
  import opened Prelude
  import opened Ledger
  import opened Text

  const DIGITS: string := "0123456789abcdef"

  const PAYLOAD: string := "payload_sha256"

  /** The hexadecimal text of a digest. */
  function Hex(n: nat): (h: string)
    ensures h != "" && forall i | 0 <= i < |h| :: h[i] in DIGITS
  {
    if n < 16 then [DIGITS[n]] else Hex(n / 16) + [DIGITS[n % 16]]
  }

  lemma {:induction false} HexInjective(a: nat, b: nat)
    requires Hex(a) == Hex(b)
    ensures a == b
    decreases a
  {
    assert forall i, j | 0 <= i < 16 && 0 <= j < 16 && DIGITS[i] == DIGITS[j] :: i == j;
    assert (a < 16) == (|Hex(a)| == 1) && (b < 16) == (|Hex(b)| == 1);
    if a >= 16 && b >= 16 {
      var ha, hb := Hex(a / 16), Hex(b / 16);
      assert Hex(a) == ha + [DIGITS[a % 16]] && Hex(b) == hb + [DIGITS[b % 16]];
      assert ha == Hex(a)[..|Hex(a)| - 1] && hb == Hex(b)[..|Hex(b)| - 1];
      assert DIGITS[a % 16] == Hex(a)[|Hex(a)| - 1] == DIGITS[b % 16];
      HexInjective(a / 16, b / 16);
    } else if a < 16 && b < 16 {
      assert Hex(a)[0] == DIGITS[a] && Hex(b)[0] == DIGITS[b];
    }
  }

  /** How clock values are written; no rendering contains a quote. */
  type Renderer = Time -> string

  ghost predicate Plain(render: Renderer) {
    forall t :: '"' !in render(t)
  }

  /** Words with quotation marks between them. */
  function Join(words: seq<string>): string
    requires words != []
  {
    if |words| == 1 then words[0] else words[0] + ("\"" + Join(words[1..]))
  }

  /** One dependency, what stands between its quotation marks: members in sorted order, no spaces. */
  function ObjectWords(render: Renderer, dep: Dependency): seq<string> {
    ["{", "expires_at", ":" + render(dep.expiresAt) + ",", "observed_at", ":" + render(dep.observedAt) + ",",
     "payload_sha256", ":", Hex(dep.payload), ",", "receipt_id", ":", Hex(dep.receiptId), ",",
     "summary_sha256", ":", Hex(dep.summaryId), "}"]
  }

  function ObjectText(render: Renderer, dep: Dependency): string {
    Join(ObjectWords(render, dep))
  }

  function ObjectsText(render: Renderer, deps: seq<Dependency>): string
    requires deps != []
  {
    if |deps| == 1 then ObjectText(render, deps[0])
    else ObjectText(render, deps[0]) + ("," + ObjectsText(render, deps[1..]))
  }

  /** `dependencies_json`. */
  function ListText(render: Renderer, deps: seq<Dependency>): string {
    if deps == [] then "[]" else "[" + ObjectsText(render, deps) + "]"
  }

  /** What the eager pass searches for. */
  function Needle(d: Digest): string { "\"payload_sha256\":\"" + Hex(d) + "\"" }

  /** Somewhere between quotes: the member name, a colon, the digest. */
  predicate Named(words: seq<string>, d: Digest) {
    exists j :: 0 <= j < |words| - 4 && NamedAt(words, d, j)
  }

  predicate NamedAt(words: seq<string>, d: Digest, j: int)
    requires 0 <= j < |words| - 4
  {
    words[j + 1] == PAYLOAD && words[j + 2] == ":" && words[j + 3] == Hex(d)
  }

  /** Two quoted words in a row at the start of a text. */
  lemma TwoWords(s: string, a: string, b: string)
    requires '"' !in a && '"' !in b
    ensures StartsWith(s, a + ['"'] + (b + ['"'])) <==>
            |Split(s, '"')| >= 3 && Split(s, '"')[0] == a && Split(s, '"')[1] == b
    ensures StartsWith(s, a + ['"'] + (b + ['"'])) ==> Split(s[|a| + |b| + 2..], '"') == Split(s, '"')[2..]
  {
    FirstWord(s, a, '"');
    StartsSplit(s, a + ['"'], b + ['"']);
    if StartsWith(s, a + ['"']) {
      FirstWord(s[|a| + 1..], b, '"');
      assert |a| + |b| + 2 <= |s| ==> s[|a| + 1..][|b| + 1..] == s[|a| + |b| + 2..];
    }
  }

  /** Three quoted words in a row after an opening quote. */
  lemma ThreeWords(s: string, a: string, b: string, h: string)
    requires s != "" && s[0] == '"' && '"' !in a && '"' !in b && '"' !in h
    ensures var words := Split(s[1..], '"');
            StartsWith(s, "\"" + ((a + ['"'] + (b + ['"'])) + (h + ['"']))) <==>
            |words| >= 4 && words[0] == a && words[1] == b && words[2] == h
  {
    var head, last := a + ['"'] + (b + ['"']), h + ['"'];
    hide Split, StartsWith;
    StartsSplit(s, "\"", head + last);
    StartsQuote(s);
    StartsSplit(s[1..], head, last);
    TwoWords(s[1..], a, b);
    StartsLength(s[1..], head);
    if StartsWith(s[1..], head) {
      FirstWord(s[1..][|a| + |b| + 2..], h, '"');
    }
  }

  lemma StartsLength(s: string, p: string)
    ensures StartsWith(s, p) ==> |p| <= |s|
  {
  }

  lemma NeedleParts(d: Digest)
    ensures Needle(d) == "\"" + ((PAYLOAD + ['"'] + (":" + ['"'])) + (Hex(d) + ['"']))
    ensures '"' !in PAYLOAD && '"' !in ":"
  {
    hide Hex;
    assert "\"payload_sha256\":\"" == "\"" + (PAYLOAD + ['"'] + (":" + ['"']));
  }

  lemma NeedleAtStart(s: string, d: Digest)
    requires s != "" && s[0] == '"'
    ensures var words := Split(s[1..], '"');
            StartsWith(s, Needle(d)) <==>
            |words| >= 4 && words[0] == PAYLOAD && words[1] == ":" && words[2] == Hex(d)
  {
    hide Split, StartsWith, Hex, Needle;
    NeedleParts(d);
    ThreeWords(s, PAYLOAD, ":", Hex(d));
  }

  lemma StartsQuote(s: string)
    requires s != ""
    ensures StartsWith(s, "\"") <==> s[0] == '"'
  {
  }

  /** Searching the text is searching its quote-separated words. */
  lemma {:induction false} OccursIsNamed(s: string, d: Digest)
    ensures Occurs(s, Needle(d)) <==> Named(Split(s, '"'), d)
  {
    if s == "" {
    } else {
      OccursStep(s, Needle(d));
      OccursIsNamed(s[1..], d);
      var rest, words := Split(s[1..], '"'), Split(s, '"');
      if s[0] == '"' {
        NeedleAtStart(s, d);
        assert words == [""] + rest;
        NamedCons("", rest, d);
      } else {
        StartsHead(s, Needle(d));
        NamedIgnoresFirst(rest, words, d);
      }
    }
  }

  lemma NamedCons(w: string, rest: seq<string>, d: Digest)
    ensures Named([w] + rest, d) <==>
            (|rest| >= 4 && rest[0] == PAYLOAD && rest[1] == ":" && rest[2] == Hex(d)) || Named(rest, d)
  {
    var words := [w] + rest;
    if Named(words, d) {
      var j :| 0 <= j < |words| - 4 && NamedAt(words, d, j);
      if j > 0 { assert NamedAt(rest, d, j - 1); }
    }
    if |rest| >= 4 && rest[0] == PAYLOAD && rest[1] == ":" && rest[2] == Hex(d) { assert NamedAt(words, d, 0); }
    if Named(rest, d) {
      var j :| 0 <= j < |rest| - 4 && NamedAt(rest, d, j);
      assert NamedAt(words, d, j + 1);
    }
  }

  lemma NamedIgnoresFirst(a: seq<string>, b: seq<string>, d: Digest)
    requires |a| == |b| > 0 && a[1..] == b[1..]
    ensures Named(a, d) <==> Named(b, d)
  {
    assert forall i | 1 <= i < |a| :: a[i] == a[1..][i - 1] == b[1..][i - 1] == b[i];
    if Named(a, d) { var j :| 0 <= j < |a| - 4 && NamedAt(a, d, j); assert NamedAt(b, d, j); }
    if Named(b, d) { var j :| 0 <= j < |b| - 4 && NamedAt(b, d, j); assert NamedAt(a, d, j); }
  }

  lemma {:induction false} SplitJoin(words: seq<string>)
    requires words != [] && forall i | 0 <= i < |words| :: '"' !in words[i]
    ensures Split(Join(words), '"') == words
  {
    SplitWord(words[0], '"');
    if |words| > 1 {
      SplitJoin(words[1..]);
      SplitConcat(words[0], "\"" + Join(words[1..]), '"');
      var tail := "\"" + Join(words[1..]);
      assert tail[1..] == Join(words[1..]);
      assert Split(tail, '"') == [""] + words[1..];
      assert words[0] + "" == words[0];
    }
  }

  lemma WordsPlain(render: Renderer, dep: Dependency)
    requires Plain(render)
    ensures forall i | 0 <= i < 17 :: '"' !in ObjectWords(render, dep)[i]
  {
    hide Hex;
  }

  lemma ObjectSplits(render: Renderer, dep: Dependency)
    requires Plain(render)
    ensures Split(ObjectText(render, dep), '"') == ObjectWords(render, dep)
  {
    WordsPlain(render, dep);
    assert |ObjectWords(render, dep)| == 17;
    hide ObjectWords, Plain, Join;
    SplitJoin(ObjectWords(render, dep));
  }

  lemma PayloadWords(render: Renderer, dep: Dependency)
    ensures var w := ObjectWords(render, dep);
      |w| == 17 && w[5] == PAYLOAD && w[6] == ":" && w[7] == Hex(dep.payload) && w[16] == "}"
  {
  }

  /** In the words of one object followed by more, the digest is named by the object or by what follows. */
  lemma NamedGlue(render: Renderer, dep: Dependency, more: seq<string>, d: Digest)
    requires more != [] && more[0] != ""
    ensures Named(Glue(ObjectWords(render, dep), more), d) <==> dep.payload == d || Named(more, d)
  {
    PayloadWords(render, dep);
    hide ObjectWords, Hex;
    var w := ObjectWords(render, dep);
    var all := Glue(w, more);
    assert forall i | 0 <= i < 16 :: all[i] == w[i];
    assert forall i | 17 <= i < |all| :: all[i] == more[i - 16];
    assert all[16] == "}" + more[0];
    if Named(all, d) {
      var j :| 0 <= j < |all| - 4 && NamedAt(all, d, j);
      if j < 16 {
        OnlyPayload(render, dep, more, d, j);
      } else {
        assert NamedAt(more, d, j - 16);
      }
    }
    if dep.payload == d { assert NamedAt(all, d, 4); }
    if Named(more, d) {
      var j :| 0 <= j < |more| - 4 && NamedAt(more, d, j);
      assert NamedAt(all, d, j + 16);
    }
  }

  /** Of the words of an object, only the sixth is the payload member's name. */
  lemma OnlyPayloadNamed(render: Renderer, dep: Dependency, i: nat)
    requires i < 16 && ObjectWords(render, dep)[i] == PAYLOAD
    ensures i == 5
  {
    var w := ObjectWords(render, dep);
    hide Hex;
    assert w[i][0] == 'p';
    assert Hex(dep.payload)[0] in DIGITS && Hex(dep.receiptId)[0] in DIGITS && Hex(dep.summaryId)[0] in DIGITS;
    assert 'p' !in DIGITS;
    assert w[2][0] == ':' && w[4][0] == ':';
  }

  lemma OnlyPayload(render: Renderer, dep: Dependency, more: seq<string>, d: Digest, j: int)
    requires more != [] && more[0] != "" && 0 <= j < 16
    requires var all := Glue(ObjectWords(render, dep), more);
             j < |all| - 4 && NamedAt(all, d, j)
    ensures dep.payload == d
  {
    var w := ObjectWords(render, dep);
    var all := Glue(w, more);
    assert all[16] == "}" + more[0];
    assert all[16][0] == '}' && PAYLOAD[0] == 'p';
    if j < 15 {
      assert all[j + 1] == w[j + 1];
      OnlyPayloadNamed(render, dep, j + 1);
      assert all[7] == w[7];
      HexInjective(dep.payload, d);
    }
  }

  lemma GlueOne(w: string, more: seq<string>)
    requires w != "" && more != []
    ensures var r := Glue([w], more); |r| == |more| && r[1..] == more[1..] && r[0] != ""
  {
  }

  lemma NamedOne(w: string, d: Digest)
    ensures !Named([w], d)
  {
  }

  lemma {:induction false} ObjectsNamed(render: Renderer, deps: seq<Dependency>, tail: string, d: Digest)
    requires Plain(render) && deps != [] && tail == "]"
    ensures Named(Split(ObjectsText(render, deps) + tail, '"'), d) <==> Mentions(deps, d)
  {
    hide Split, Named, Glue, ObjectWords, ObjectText;
    var first := ObjectText(render, deps[0]);
    ObjectSplits(render, deps[0]);
    if |deps| == 1 {
      SplitConcat(first, tail, '"');
      SplitWord(tail, '"');
      NamedGlue(render, deps[0], [tail], d);
      NamedOne(tail, d);
    } else {
      var rest := ObjectsText(render, deps[1..]) + tail;
      ObjectsNamed(render, deps[1..], tail, d);
      assert ObjectsText(render, deps) + tail == first + ("," + rest);
      SplitConcat(first, "," + rest, '"');
      SplitConcat(",", rest, '"');
      SplitWord(",", '"');
      var more := Split("," + rest, '"');
      GlueOne(",", Split(rest, '"'));
      NamedIgnoresFirst(Split(rest, '"'), more, d);
      NamedGlue(render, deps[0], more, d);
    }
  }

  /** The textual filter selects a stored row exactly when the row depends on the payload. */
  lemma FilterFindsDependents(render: Renderer, deps: seq<Dependency>, d: Digest)
    requires Plain(render)
    ensures Occurs(ListText(render, deps), Needle(d)) <==> Mentions(deps, d)
  {
    OccursIsNamed(ListText(render, deps), d);
    if deps == [] {
      SplitWord("[]", '"');
    } else {
      var body := ObjectsText(render, deps) + "]";
      assert ListText(render, deps) == "[" + body;
      ObjectsNamed(render, deps, "]", d);
      SplitConcat("[", body, '"');
      SplitWord("[", '"');
      NamedIgnoresFirst(Split(body, '"'), Split("[" + body, '"'), d);
    }
  }
}
