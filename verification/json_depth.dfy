/**
 The nesting depth of a JSON text, computed without recursion over its structure: escaped
 backslashes and quotes are deleted, the text is split at the remaining quotes, every second piece is
 kept, and the brackets left over are summed up. Against it stand the grammar of RFC 8259 (sections
 2 to 7) and a reader that stops at the first character no JSON text can have there.
 */
module JsonDepth {
  import Text

  const BACKSLASH: char := '\\'
  const QUOTE: char := '"'
  const MAX_JSON_DEPTH: int := 64

  function Max(a: int, b: int): int { if a >= b then a else b }

  // ------------------------------------------------------- the computed depth

  /** Python's `s.replace(ab, "")`: leftmost occurrences, not overlapping. */
  function Delete(s: string, a: char, b: char): string {
    if |s| < 2 then s
    else if s[0] == a && s[1] == b then Delete(s[2..], a, b)
    else [s[0]] + Delete(s[1..], a, b)
  }

  function Unescape(s: string): string {
    Delete(Delete(s, BACKSLASH, BACKSLASH), BACKSLASH, QUOTE)
  }

  /** The words at even positions, put together. */
  function EvenWords(words: seq<string>): string {
    if words == [] then "" else if |words| == 1 then words[0] else words[0] + EvenWords(words[2..])
  }

  predicate Opens(c: char) { c == '[' || c == '{' }

  predicate Closes(c: char) { c == ']' || c == '}' }

  predicate IsBracket(c: char) { Opens(c) || Closes(c) }

  function Brackets(s: string): string {
    if s == "" then "" else (if IsBracket(s[0]) then [s[0]] else "") + Brackets(s[1..])
  }

  function StepOf(c: char): int { if Opens(c) then 1 else -1 }

  function Balance(b: string): int {
    if b == "" then 0 else StepOf(b[0]) + Balance(b[1..])
  }

  /** The largest running balance, 0 when there is none. */
  function Deepest(b: string): (d: int)
    ensures b == "" ==> d == 0
    ensures forall k | 1 <= k <= |b| :: Balance(b[..k]) <= d
    ensures b != "" ==> exists k :: 1 <= k <= |b| && Balance(b[..k]) == d
  {
    if b == "" then 0
    else
      var rest := Deepest(b[1..]);
      assert b[..1] == [b[0]] && Balance(b[..1]) == StepOf(b[0]);
      assert forall k | 2 <= k <= |b| :: b[..k][1..] == b[1..][..k - 1];
      if |b| == 1 then StepOf(b[0])
      else
        assert forall k | 2 <= k <= |b| :: Balance(b[..k]) == StepOf(b[0]) + Balance(b[1..][..k - 1]);
        assert exists k :: 2 <= k <= |b| && Balance(b[..k]) == StepOf(b[0]) + rest by {
          var j :| 1 <= j <= |b[1..]| && Balance(b[1..][..j]) == rest;
          assert Balance(b[..j + 1]) == StepOf(b[0]) + rest;
        }
        StepOf(b[0]) + Max(0, rest)
  }

  /** `json_nesting_depth`. */
  function NestingDepth(text: string): int {
    Deepest(Brackets(EvenWords(Text.Split(Unescape(text), QUOTE))))
  }

  // --------------------------------------------- the same, character by character

  /** What stands outside quotes when reading starts inside or outside a string. */
  function Outside(s: string, inside: bool): string {
    if s == "" then ""
    else if s[0] == QUOTE then Outside(s[1..], !inside)
    else (if inside then "" else [s[0]]) + Outside(s[1..], inside)
  }

  function OddWords(words: seq<string>): string {
    if words == [] then "" else EvenWords(words[1..])
  }

  lemma {:induction false} OutsideIsEvenWords(s: string)
    ensures Outside(s, false) == EvenWords(Text.Split(s, QUOTE))
    ensures Outside(s, true) == OddWords(Text.Split(s, QUOTE))
  {
    if s != "" {
      OutsideIsEvenWords(s[1..]);
      var rest := Text.Split(s[1..], QUOTE);
      if s[0] == QUOTE {
        assert ([""] + rest)[1..] == rest;
        assert |rest| >= 1 && ([""] + rest)[2..] == rest[1..];
      } else {
        var words := Text.Prepend(s[0], rest);
        assert words[1..] == rest[1..];
        if |rest| > 1 { assert words[2..] == rest[2..]; }
      }
    }
  }

  /** The brackets a text shows outside strings. */
  function Visible(s: string, inside: bool): string {
    Brackets(Outside(Unescape(s), inside))
  }

  lemma DeletePlain(c: char, s: string, a: char, b: char)
    requires c != a
    ensures Delete([c] + s, a, b) == [c] + Delete(s, a, b)
  {
  }

  lemma UnescapePlain(c: char, s: string)
    requires c != BACKSLASH
    ensures Unescape([c] + s) == [c] + Unescape(s)
  {
  }

  lemma OutsidePlain(c: char, u: string, inside: bool)
    requires c != QUOTE
    ensures Outside([c] + u, inside) == if inside then Outside(u, true) else [c] + Outside(u, false)
  {
  }

  lemma BracketsCons(c: char, o: string)
    ensures Brackets([c] + o) == if IsBracket(c) then [c] + Brackets(o) else Brackets(o)
  {
  }

  lemma VisiblePlain(c: char, s: string, inside: bool)
    requires c != BACKSLASH && c != QUOTE
    ensures Visible([c] + s, inside) == if !inside && IsBracket(c) then [c] + Visible(s, inside) else Visible(s, inside)
  {
    UnescapePlain(c, s);
    OutsidePlain(c, Unescape(s), inside);
    BracketsCons(c, Outside(Unescape(s), inside));
  }

  lemma VisibleQuote(s: string, inside: bool)
    ensures Visible([QUOTE] + s, inside) == Visible(s, !inside)
  {
  }

  /** An escape inside a string shows nothing, whatever is escaped. */
  lemma VisibleEscape(x: char, s: string)
    ensures Visible([BACKSLASH, x] + s, true) == Visible(s, true)
  {
    var t := [BACKSLASH, x] + s;
    var d := Delete(s, BACKSLASH, BACKSLASH);
    assert t[2..] == s && t[1..] == [x] + s;
    if x != BACKSLASH {
      DeletePlain(x, s, BACKSLASH, BACKSLASH);
      var u := [BACKSLASH] + ([x] + d);
      assert Delete(t, BACKSLASH, BACKSLASH) == u;
      assert u[1..] == [x] + d && u[2..] == d;
      if x != QUOTE {
        DeletePlain(x, d, BACKSLASH, QUOTE);
        var e := Delete(d, BACKSLASH, QUOTE);
        assert Delete(u, BACKSLASH, QUOTE) == [BACKSLASH] + ([x] + e);
        OutsidePlain(BACKSLASH, [x] + e, true);
        OutsidePlain(x, e, true);
      }
    }
  }

  /** An escaped backslash or quote shows nothing, inside a string or outside. */
  lemma VisiblePair(x: char, s: string, inside: bool)
    requires x == BACKSLASH || x == QUOTE
    ensures Visible([BACKSLASH, x] + s, inside) == Visible(s, inside)
  {
    var t := [BACKSLASH, x] + s;
    var d := Delete(s, BACKSLASH, BACKSLASH);
    assert t[2..] == s && t[1..] == [x] + s;
    if x == QUOTE {
      DeletePlain(x, s, BACKSLASH, BACKSLASH);
      var u := [BACKSLASH] + ([x] + d);
      assert Delete(t, BACKSLASH, BACKSLASH) == u;
      assert u[1..] == [x] + d && u[2..] == d;
    }
  }

  /** So does a backslash before any other character, or at the end. */
  lemma VisibleLone(s: string, inside: bool)
    requires s == "" || (s[0] != BACKSLASH && s[0] != QUOTE)
    ensures Visible([BACKSLASH] + s, inside) == Visible(s, inside)
  {
    var t := [BACKSLASH] + s;
    assert t[1..] == s;
    var d := Delete(s, BACKSLASH, BACKSLASH);
    assert Delete(t, BACKSLASH, BACKSLASH) == [BACKSLASH] + d;
    assert s != "" ==> d != "" && d[0] == s[0];
    assert ([BACKSLASH] + d)[1..] == d;
    assert Unescape(t) == [BACKSLASH] + Unescape(s);
    OutsidePlain(BACKSLASH, Unescape(s), inside);
    BracketsCons(BACKSLASH, Outside(Unescape(s), inside));
  }

  /** The brackets outside strings, in one reading of the text from left to right. */
  function Shown(s: string, inside: bool): string
    decreases |s|
  {
    if s == "" then ""
    else if s[0] == BACKSLASH then
      if |s| >= 2 && (s[1] == BACKSLASH || s[1] == QUOTE) then Shown(s[2..], inside) else Shown(s[1..], inside)
    else if s[0] == QUOTE then Shown(s[1..], !inside)
    else (if !inside && IsBracket(s[0]) then [s[0]] else "") + Shown(s[1..], inside)
  }

  /** The passes of the program over the whole text leave the same brackets as the one reading. */
  lemma {:induction false} ShownIsVisible(s: string, inside: bool)
    ensures Shown(s, inside) == Visible(s, inside)
    decreases |s|
  {
    hide Visible;
    if s == "" {
      assert Visible(s, inside) == "" by { NothingVisible(inside); }
    } else {
      var rest := s[1..];
      assert s == [s[0]] + rest;
      if s[0] == BACKSLASH && |s| >= 2 && (s[1] == BACKSLASH || s[1] == QUOTE) {
        assert s == [BACKSLASH, s[1]] + s[2..];
        VisiblePair(s[1], s[2..], inside);
        ShownIsVisible(s[2..], inside);
      } else if s[0] == BACKSLASH {
        VisibleLone(rest, inside);
        ShownIsVisible(rest, inside);
      } else if s[0] == QUOTE {
        VisibleQuote(rest, inside);
        ShownIsVisible(rest, !inside);
      } else {
        VisiblePlain(s[0], rest, inside);
        ShownIsVisible(rest, inside);
      }
    }
  }

  lemma NothingVisible(inside: bool)
    ensures Visible("", inside) == ""
  {
  }

  /** The largest balance over all prefixes, the empty one included. */
  function Peak(b: string): nat {
    if b == "" then 0 else Max(0, StepOf(b[0]) + Peak(b[1..]))
  }

  lemma PeakCons(c: char, b: string)
    ensures Peak([c] + b) == Max(0, StepOf(c) + Peak(b))
  {
  }

  lemma {:induction false} PeakIsDeepest(b: string)
    ensures Peak(b) == Max(0, Deepest(b))
    ensures b != "" ==> Deepest(b) == StepOf(b[0]) + Peak(b[1..])
  {
    if b != "" { PeakIsDeepest(b[1..]); }
  }

  lemma DepthIsPeak(text: string)
    ensures Max(0, NestingDepth(text)) == Peak(Visible(text, false))
  {
    OutsideIsEvenWords(Unescape(text));
    PeakIsDeepest(Visible(text, false));
  }

  // ------------------------------------------------------------ invalid texts

  const ESCAPABLE: string := "\"\\/bfnrtu"

  /** The closing bracket an opening one asks for. */
  function Partner(c: char): char { if c == '[' then ']' else '}' }

  /**
   How deep a reader of JSON can get: it opens a level at each opening bracket, closes the innermost
   one at its partner, and goes on until a character that no JSON text can have at that place. A
   parser stops there at the latest.
   */
  function Reach(s: string, open: seq<char>, inside: bool): nat
    decreases |s|
  {
    if s == "" then |open|
    else if inside then
      if s[0] == QUOTE then Reach(s[1..], open, false)
      else if s[0] == BACKSLASH then
        if |s| >= 2 && s[1] in ESCAPABLE then Reach(s[2..], open, true) else |open|
      else if s[0] < ' ' then |open|
      else Reach(s[1..], open, true)
    else if s[0] == QUOTE then Reach(s[1..], open, true)
    else if s[0] == BACKSLASH then |open|
    else if Opens(s[0]) then Reach(s[1..], open + [s[0]], false)
    else if Closes(s[0]) then
      if open != [] && s[0] == Partner(open[|open| - 1])
      then Max(|open|, Reach(s[1..], open[..|open| - 1], false))
      else |open|
    else Reach(s[1..], open, false)
  }

  lemma {:induction false} ReachBounded(s: string, open: seq<char>, inside: bool)
    ensures Reach(s, open, inside) <= |open| + Peak(Visible(s, inside))
    decreases |s|
  {
    if s != "" {
      assert s == [s[0]] + s[1..];
      if s[0] == QUOTE {
        VisibleQuote(s[1..], inside);
        ReachBounded(s[1..], open, !inside);
      } else if s[0] == BACKSLASH {
        if inside && |s| >= 2 {
          assert s == [BACKSLASH, s[1]] + s[2..];
          VisibleEscape(s[1], s[2..]);
          ReachBounded(s[2..], open, true);
        }
      } else {
        VisiblePlain(s[0], s[1..], inside);
        var more := Visible(s[1..], inside);
        PeakCons(s[0], more);
        if inside || !IsBracket(s[0]) {
          ReachBounded(s[1..], open, inside);
        } else if Opens(s[0]) {
          ReachBounded(s[1..], open + [s[0]], false);
        } else if open != [] {
          ReachBounded(s[1..], open[..|open| - 1], false);
        }
      }
    }
  }

  /** On every text, no reader gets deeper than the computed depth, taken as 0 where it is negative. */
  lemma DepthBoundsReaders(text: string)
    ensures Reach(text, [], false) <= Max(0, NestingDepth(text))
  {
    ReachBounded(text, [], false);
    DepthIsPeak(text);
  }

  /** A text that passes the bound of 64 takes no reader deeper than 64. */
  lemma BoundProtectsReaders(text: string)
    requires NestingDepth(text) <= MAX_JSON_DEPTH
    ensures Reach(text, [], false) <= 64
  {
    DepthBoundsReaders(text);
  }

  /** A reader that gets anywhere has seen an opening bracket first. */
  lemma {:induction false} ReaderOpensFirst(s: string, inside: bool)
    requires Reach(s, [], inside) > 0
    ensures Visible(s, inside) != "" && Opens(Visible(s, inside)[0])
    decreases |s|
  {
    hide Visible;
    assert s == [s[0]] + s[1..];
    if s[0] == QUOTE {
      VisibleQuote(s[1..], inside);
      ReaderOpensFirst(s[1..], !inside);
    } else if s[0] == BACKSLASH {
      assert s == [BACKSLASH, s[1]] + s[2..];
      VisibleEscape(s[1], s[2..]);
      ReaderOpensFirst(s[2..], true);
    } else {
      VisiblePlain(s[0], s[1..], inside);
      if inside || !IsBracket(s[0]) { ReaderOpensFirst(s[1..], inside); }
    }
  }

  /** The first bracket closes, and after it the opening ones never outnumber the closing ones. */
  predicate ClosesThroughout(b: string) {
    b != "" && !Opens(b[0]) && forall k | 1 <= k <= |b| :: Balance(b[1..k]) <= 0
  }

  lemma NegativeExactly(b: string)
    ensures Deepest(b) < 0 <==> ClosesThroughout(b)
  {
    if b != "" {
      PeakIsDeepest(b);
      PeakIsDeepest(b[1..]);
      forall k | 1 <= k <= |b| ensures Balance(b[1..k]) == Balance(b[1..][..k - 1]) {
        assert b[1..k] == b[1..][..k - 1];
      }
      if ClosesThroughout(b) && |b| > 1 {
        var k :| 1 <= k <= |b[1..]| && Balance(b[1..][..k]) == Deepest(b[1..]);
        assert Balance(b[1..k + 1]) <= 0;
      }
      if Deepest(b[1..]) <= 0 {
        forall k | 1 <= k <= |b| ensures Balance(b[1..k]) <= 0 {
          if k > 1 { assert Balance(b[1..][..k - 1]) <= Deepest(b[1..]); }
        }
      }
    }
  }

  /**
   The computed depth itself can lie below the depth reached, but only by being negative, and then no reader
   enters a container: exactly when, of the brackets outside strings, the first one closes and after it the
   opening ones never outnumber the closing ones.
   */
  lemma DepthTooLowOnlyIfNegative(text: string)
    ensures NestingDepth(text) < Reach(text, [], false) <==> NestingDepth(text) < 0
    ensures NestingDepth(text) < 0 <==> ClosesThroughout(Shown(text, false))
    ensures NestingDepth(text) < 0 ==> Reach(text, [], false) == 0
  {
    hide Shown, Unescape, Reach, Balance, Deepest;
    DepthBoundsReaders(text);
    OutsideIsEvenWords(Unescape(text));
    ShownIsVisible(text, false);
    var b := Visible(text, false);
    NegativeExactly(b);
    if Reach(text, [], false) > 0 { ReaderOpensFirst(text, false); }
  }

  /** A closing bracket alone has depth -1. */
  lemma NegativeDepthExists()
    ensures NestingDepth("]") == -1 && Reach("]", [], false) == 0
  {
    assert Delete("]", BACKSLASH, BACKSLASH) == "]" && Delete("]", BACKSLASH, QUOTE) == "]";
    Text.SplitWord("]", QUOTE);
    BracketsCons(']', "");
    assert Brackets("]") == "]";
    PeakIsDeepest("]");
  }

  // -------------------------------------------------------------- the grammar

  datatype Piece = Raw(c: char) | Escaped(c: char) | CodeUnit(digits: string)

  /** A JSON value as it is written, with all its white space and escapes. */
  datatype Json =
    | Literal(word: string)
    | Numeral(minus: bool, whole: string, fraction: string, exponent: string)
    | Str(body: seq<Piece>)
    | Array(pad: string, items: seq<Element>)
    | Object(pad: string, members: seq<Member>)

  datatype Element = Element(before: string, value: Json, after: string)

  datatype Member = Member(before: string, name: seq<Piece>, mid: string, gap: string, value: Json, after: string)

  predicate Blank(s: string) { forall i | 0 <= i < |s| :: s[i] in " \t\n\r" }

  predicate Digits(s: string) { s != "" && forall i | 0 <= i < |s| :: '0' <= s[i] <= '9' }

  predicate HexDigit(c: char) { '0' <= c <= '9' || 'a' <= c <= 'f' || 'A' <= c <= 'F' }

  predicate PieceValid(p: Piece) {
    match p
    case Raw(c) => c >= ' ' && c != QUOTE && c != BACKSLASH
    case Escaped(c) => c in "\"\\/bfnrt"
    case CodeUnit(digits) => |digits| == 4 && forall i | 0 <= i < 4 :: HexDigit(digits[i])
  }

  predicate BodyValid(body: seq<Piece>) { forall i | 0 <= i < |body| :: PieceValid(body[i]) }

  predicate FractionValid(s: string) { s == "" || (s[0] == '.' && Digits(s[1..])) }

  predicate ExponentValid(s: string) {
    s == "" || ((s[0] == 'e' || s[0] == 'E') &&
                (Digits(s[1..]) || (|s| > 1 && (s[1] == '+' || s[1] == '-') && Digits(s[2..]))))
  }

  predicate Valid(j: Json) {
    match j
    case Literal(word) => word == "true" || word == "false" || word == "null"
    case Numeral(_, whole, fraction, exponent) =>
      Digits(whole) && (whole == "0" || whole[0] != '0') && FractionValid(fraction) && ExponentValid(exponent)
    case Str(body) => BodyValid(body)
    case Array(pad, items) => Blank(pad) && ElementsValid(items)
    case Object(pad, members) => Blank(pad) && MembersValid(members)
  }

  predicate ElementsValid(items: seq<Element>) {
    items == [] || (Blank(items[0].before) && Valid(items[0].value) && Blank(items[0].after)
                    && ElementsValid(items[1..]))
  }

  predicate MembersValid(members: seq<Member>) {
    members == [] ||
    (var m := members[0];
     Blank(m.before) && BodyValid(m.name) && Blank(m.mid) && Blank(m.gap) && Valid(m.value) && Blank(m.after)
     && MembersValid(members[1..]))
  }

  function PieceText(p: Piece): string {
    match p
    case Raw(c) => [c]
    case Escaped(c) => [BACKSLASH, c]
    case CodeUnit(digits) => [BACKSLASH, 'u'] + digits
  }

  function BodyText(body: seq<Piece>): string {
    if body == [] then "" else PieceText(body[0]) + BodyText(body[1..])
  }

  function Quoted(body: seq<Piece>): string { [QUOTE] + (BodyText(body) + [QUOTE]) }

  function TextOf(j: Json): string {
    match j
    case Literal(word) => word
    case Numeral(minus, whole, fraction, exponent) => (if minus then "-" else "") + whole + fraction + exponent
    case Str(body) => Quoted(body)
    case Array(pad, items) => "[" + ((if items == [] then pad else ElementsText(items)) + "]")
    case Object(pad, members) => "{" + ((if members == [] then pad else MembersText(members)) + "}")
  }

  function ElementsText(items: seq<Element>): string
    requires items != []
  {
    var first := items[0].before + (TextOf(items[0].value) + items[0].after);
    if |items| == 1 then first else first + ("," + ElementsText(items[1..]))
  }

  function MemberText(m: Member): string {
    m.before + (Quoted(m.name) + (m.mid + (":" + (m.gap + (TextOf(m.value) + m.after)))))
  }

  function MembersText(members: seq<Member>): string
    requires members != []
  {
    if |members| == 1 then MemberText(members[0]) else MemberText(members[0]) + ("," + MembersText(members[1..]))
  }

  /** The container depth of a value. */
  function Depth(j: Json): nat {
    match j
    case Array(_, items) => 1 + ElementsDepth(items)
    case Object(_, members) => 1 + MembersDepth(members)
    case _ => 0
  }

  function ElementsDepth(items: seq<Element>): nat {
    if items == [] then 0 else Max(Depth(items[0].value), ElementsDepth(items[1..]))
  }

  function MembersDepth(members: seq<Member>): nat {
    if members == [] then 0 else Max(Depth(members[0].value), MembersDepth(members[1..]))
  }

  /** The brackets of a value, in order. */
  function Shape(j: Json): string {
    match j
    case Array(_, items) => "[" + (ElementsShape(items) + "]")
    case Object(_, members) => "{" + (MembersShape(members) + "}")
    case _ => ""
  }

  function ElementsShape(items: seq<Element>): string {
    if items == [] then "" else Shape(items[0].value) + ElementsShape(items[1..])
  }

  function MembersShape(members: seq<Member>): string {
    if members == [] then "" else Shape(members[0].value) + MembersShape(members[1..])
  }

  // ----------------------------------------- valid texts show exactly their shape

  /** Text without quotes, backslashes and brackets. */
  predicate Inert(s: string) {
    forall i | 0 <= i < |s| :: s[i] != QUOTE && s[i] != BACKSLASH && !IsBracket(s[i])
  }

  lemma {:induction false} InertVisible(w: string, s: string)
    requires Inert(w)
    ensures Visible(w + s, false) == Visible(s, false)
  {
    if w == "" {
      assert w + s == s;
    } else {
      InertVisible(w[1..], s);
      assert w + s == [w[0]] + (w[1..] + s);
      VisiblePlain(w[0], w[1..] + s, false);
    }
  }

  lemma BlankInert(w: string)
    requires Blank(w)
    ensures Inert(w)
  {
  }

  lemma BlankVisible(w: string, s: string)
    requires Blank(w)
    ensures Visible(w + s, false) == Visible(s, false)
  {
    assert Inert(w);
    InertVisible(w, s);
  }

  lemma {:induction false} HexVisible(w: string, s: string)
    requires forall i | 0 <= i < |w| :: HexDigit(w[i])
    ensures Visible(w + s, true) == Visible(s, true)
  {
    if w == "" {
      assert w + s == s;
    } else {
      HexVisible(w[1..], s);
      assert w + s == [w[0]] + (w[1..] + s);
      VisiblePlain(w[0], w[1..] + s, true);
    }
  }

  lemma PieceVisible(piece: Piece, s: string)
    requires PieceValid(piece)
    ensures Visible(PieceText(piece) + s, true) == Visible(s, true)
  {
    hide Visible;
    match piece
    case Raw(c) => VisiblePlain(c, s, true);
    case Escaped(c) =>
      assert PieceText(piece) + s == [BACKSLASH, c] + s;
      VisibleEscape(c, s);
    case CodeUnit(digits) =>
      assert PieceText(piece) + s == [BACKSLASH, 'u'] + (digits + s);
      VisibleEscape('u', digits + s);
      HexVisible(digits, s);
  }

  lemma {:induction false} BodyVisible(body: seq<Piece>, s: string)
    requires BodyValid(body)
    ensures Visible(BodyText(body) + s, true) == Visible(s, true)
  {
    hide Visible, PieceText;
    if body == [] {
      assert BodyText(body) + s == s;
    } else {
      var rest := BodyText(body[1..]) + s;
      assert BodyText(body) + s == PieceText(body[0]) + rest;
      BodyVisible(body[1..], s);
      PieceVisible(body[0], rest);
    }
  }

  lemma QuotedVisible(body: seq<Piece>, s: string)
    requires BodyValid(body)
    ensures Visible(Quoted(body) + s, false) == Visible(s, false)
  {
    assert Quoted(body) + s == [QUOTE] + (BodyText(body) + ([QUOTE] + s));
    VisibleQuote(BodyText(body) + ([QUOTE] + s), false);
    BodyVisible(body, [QUOTE] + s);
    VisibleQuote(s, true);
  }

  lemma InertConcat(a: string, b: string)
    requires Inert(a) && Inert(b)
    ensures Inert(a + b)
  {
  }

  lemma DigitsInert(s: string)
    requires Digits(s)
    ensures Inert(s)
  {
  }

  lemma FractionInert(s: string)
    requires FractionValid(s)
    ensures Inert(s)
  {
  }

  lemma ExponentInert(s: string)
    requires ExponentValid(s)
    ensures Inert(s)
  {
  }

  lemma ScalarInert(j: Json)
    requires Valid(j) && (j.Literal? || j.Numeral?)
    ensures Inert(TextOf(j))
  {
    if j.Numeral? {
      var sign := if j.minus then "-" else "";
      DigitsInert(j.whole);
      FractionInert(j.fraction);
      ExponentInert(j.exponent);
      InertConcat(sign, j.whole);
      InertConcat(sign + j.whole, j.fraction);
      InertConcat(sign + j.whole + j.fraction, j.exponent);
    }
  }

  lemma BracketVisible(c: char, s: string)
    requires IsBracket(c)
    ensures Visible([c] + s, false) == [c] + Visible(s, false)
  {
  }

  lemma {:induction false} ValueVisible(j: Json, s: string)
    requires Valid(j)
    ensures Visible(TextOf(j) + s, false) == Shape(j) + Visible(s, false)
    decreases j, 1
  {
    hide Visible, Inert, Digits, BodyValid, Blank;
    match j
    case Literal(_) => ScalarInert(j); InertVisible(TextOf(j), s);
    case Numeral(_, _, _, _) => ScalarInert(j); InertVisible(TextOf(j), s);
    case Str(body) => QuotedVisible(body, s);
    case Array(pad, items) =>
      if items == [] { BlankVisible(pad, "]" + s); } else { ElementsVisible(items, "]" + s); }
      EnclosedVisible('[', if items == [] then pad else ElementsText(items), ']',
                      if items == [] then "" else ElementsShape(items), s);
    case Object(pad, members) =>
      if members == [] { BlankVisible(pad, "}" + s); } else { MembersVisible(members, "}" + s); }
      EnclosedVisible('{', if members == [] then pad else MembersText(members), '}',
                      if members == [] then "" else MembersShape(members), s);
  }

  lemma EnclosedVisible(open: char, inner: string, close: char, shape: string, s: string)
    requires IsBracket(open) && IsBracket(close)
    requires Visible(inner + ([close] + s), false) == shape + Visible([close] + s, false)
    ensures Visible(([open] + (inner + [close])) + s, false) == ([open] + shape + [close]) + Visible(s, false)
  {
    hide Visible;
    assert ([open] + (inner + [close])) + s == [open] + (inner + ([close] + s));
    BracketVisible(open, inner + ([close] + s));
    BracketVisible(close, s);
  }

  lemma {:induction false} ElementsVisible(items: seq<Element>, s: string)
    requires items != [] && ElementsValid(items)
    ensures Visible(ElementsText(items) + s, false) == ElementsShape(items) + Visible(s, false)
    decreases items, 0
  {
    hide Visible, Inert, Digits, BodyValid, Blank;
    var e := items[0];
    var tail := if |items| == 1 then s else "," + (ElementsText(items[1..]) + s);
    assert ElementsText(items) + s == e.before + (TextOf(e.value) + (e.after + tail));
    BlankVisible(e.before, TextOf(e.value) + (e.after + tail));
    ValueVisible(e.value, e.after + tail);
    BlankVisible(e.after, tail);
    if |items| > 1 {
      VisiblePlain(',', ElementsText(items[1..]) + s, false);
      ElementsVisible(items[1..], s);
    }
  }

  lemma Reassociate(a: string, b: string, c: string)
    ensures (a + b) + c == a + (b + c)
  {
  }

  lemma {:induction false} MemberVisible(m: Member, s: string)
    requires MembersValid([m])
    ensures Visible(MemberText(m) + s, false) == Shape(m.value) + Visible(s, false)
    decreases m, 0
  {
    hide Visible, Inert, Digits, BodyValid, Blank, Quoted;
    var v, q := TextOf(m.value), Quoted(m.name);
    var u5 := v + m.after;
    var u4 := m.gap + u5;
    var u3 := ":" + u4;
    var u2 := m.mid + u3;
    Reassociate(m.before, q + u2, s);
    Reassociate(q, u2, s);
    Reassociate(m.mid, u3, s);
    Reassociate(":", u4, s);
    Reassociate(m.gap, u5, s);
    Reassociate(v, m.after, s);
    BlankVisible(m.before, (q + u2) + s);
    QuotedVisible(m.name, u2 + s);
    BlankVisible(m.mid, u3 + s);
    VisiblePlain(':', u4 + s, false);
    BlankVisible(m.gap, u5 + s);
    ValueVisible(m.value, m.after + s);
    BlankVisible(m.after, s);
  }

  lemma {:induction false} MembersVisible(members: seq<Member>, s: string)
    requires members != [] && MembersValid(members)
    ensures Visible(MembersText(members) + s, false) == MembersShape(members) + Visible(s, false)
    decreases members, 0
  {
    hide Visible, Inert, Digits, BodyValid, Blank, MemberText;
    var tail := if |members| == 1 then s else "," + (MembersText(members[1..]) + s);
    assert MembersText(members) + s == MemberText(members[0]) + tail;
    MemberVisible(members[0], tail);
    if |members| > 1 {
      VisiblePlain(',', MembersText(members[1..]) + s, false);
      MembersVisible(members[1..], s);
    }
  }

  // -------------------------------------------- the shape's peak is the depth

  lemma EnclosedPeak(open: char, inner: string, close: char, d: nat, b: string)
    requires Opens(open) && Closes(close)
    requires Peak(inner + ([close] + b)) == Max(d, Peak([close] + b))
    ensures Peak(([open] + (inner + [close])) + b) == Max(1 + d, Peak(b))
  {
    hide Peak;
    assert ([open] + (inner + [close])) + b == [open] + (inner + ([close] + b));
    PeakCons(open, inner + ([close] + b));
    PeakCons(close, b);
  }

  lemma {:induction false} ShapePeak(j: Json, b: string)
    ensures Peak(Shape(j) + b) == Max(Depth(j), Peak(b))
    decreases j, 1
  {
    hide Peak;
    match j
    case Array(_, items) =>
      ElementsPeak(items, "]" + b);
      EnclosedPeak('[', ElementsShape(items), ']', ElementsDepth(items), b);
    case Object(_, members) =>
      MembersPeak(members, "}" + b);
      EnclosedPeak('{', MembersShape(members), '}', MembersDepth(members), b);
    case _ => assert Shape(j) + b == b;
  }

  lemma {:induction false} ElementsPeak(items: seq<Element>, b: string)
    ensures Peak(ElementsShape(items) + b) == Max(ElementsDepth(items), Peak(b))
    decreases items, 0
  {
    if items == [] {
      assert ElementsShape(items) + b == b;
    } else {
      assert ElementsShape(items) + b == Shape(items[0].value) + (ElementsShape(items[1..]) + b);
      ShapePeak(items[0].value, ElementsShape(items[1..]) + b);
      ElementsPeak(items[1..], b);
    }
  }

  lemma {:induction false} MembersPeak(members: seq<Member>, b: string)
    ensures Peak(MembersShape(members) + b) == Max(MembersDepth(members), Peak(b))
    decreases members, 0
  {
    if members == [] {
      assert MembersShape(members) + b == b;
    } else {
      assert MembersShape(members) + b == Shape(members[0].value) + (MembersShape(members[1..]) + b);
      ShapePeak(members[0].value, MembersShape(members[1..]) + b);
      MembersPeak(members[1..], b);
    }
  }

  /** A whole JSON text: a value with white space around it. */
  function Document(before: string, j: Json, after: string): string { before + (TextOf(j) + after) }

  /** For every way of writing every JSON value, the computed depth is its container depth. */
  lemma DepthExactOnJson(before: string, j: Json, after: string)
    requires Valid(j) && Blank(before) && Blank(after)
    ensures NestingDepth(Document(before, j, after)) == Depth(j)
  {
    hide Unescape, Inert, Blank, Brackets, Outside;
    var text := Document(before, j, after);
    BlankInert(before);
    BlankInert(after);
    InertVisible(before, TextOf(j) + after);
    ValueVisible(j, after);
    assert after + "" == after;
    InertVisible(after, "");
    var b := Visible(text, false);
    NothingVisible(false);
    assert b == Shape(j) + "";
    ShapePeak(j, "");
    OutsideIsEvenWords(Unescape(text));
    PeakIsDeepest(b);
    assert b == "" || Opens(b[0]);
  }
}
