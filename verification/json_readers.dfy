/** On written JSON the reader gets exactly as deep as the value is: the bound on readers cannot be lowered. */
module JsonReaders {
  import opened JsonDepth

  lemma {:induction false} ReachAtLeast(s: string, open: seq<char>, inside: bool)
    ensures Reach(s, open, inside) >= |open|
    decreases |s|
  {
    if s != "" {
      if inside && s[0] == BACKSLASH {
        if |s| >= 2 { ReachAtLeast(s[2..], open, true); }
      } else if s[0] == QUOTE {
        ReachAtLeast(s[1..], open, !inside);
      } else if inside || !IsBracket(s[0]) {
        ReachAtLeast(s[1..], open, inside);
      } else if Opens(s[0]) {
        ReachAtLeast(s[1..], open + [s[0]], false);
      }
    }
  }

  lemma {:induction false} InertRead(w: string, s: string, open: seq<char>)
    requires Inert(w)
    ensures Reach(w + s, open, false) == Reach(s, open, false)
  {
    if w == "" {
      assert w + s == s;
    } else {
      InertRead(w[1..], s, open);
      assert w + s == [w[0]] + (w[1..] + s);
    }
  }

  lemma BlankRead(w: string, s: string, open: seq<char>)
    requires Blank(w)
    ensures Reach(w + s, open, false) == Reach(s, open, false)
  {
    BlankInert(w);
    InertRead(w, s, open);
  }

  // -------------------------------------------------------------------------- strings

  lemma {:induction false} HexRead(w: string, s: string, open: seq<char>)
    requires forall i | 0 <= i < |w| :: HexDigit(w[i])
    ensures Reach(w + s, open, true) == Reach(s, open, true)
  {
    if w == "" {
      assert w + s == s;
    } else {
      HexRead(w[1..], s, open);
      assert w + s == [w[0]] + (w[1..] + s);
      assert HexDigit(w[0]);
    }
  }

  lemma PieceRead(piece: Piece, s: string, open: seq<char>)
    requires PieceValid(piece)
    ensures Reach(PieceText(piece) + s, open, true) == Reach(s, open, true)
  {
    match piece
    case Raw(c) => assert [c] + s == PieceText(piece) + s;
    case Escaped(c) =>
      assert c in ESCAPABLE;
      assert (PieceText(piece) + s)[2..] == s;
    case CodeUnit(digits) =>
      assert 'u' in ESCAPABLE;
      assert (PieceText(piece) + s)[2..] == digits + s;
      HexRead(digits, s, open);
  }

  lemma {:induction false} BodyRead(body: seq<Piece>, s: string, open: seq<char>)
    requires BodyValid(body)
    ensures Reach(BodyText(body) + s, open, true) == Reach(s, open, true)
  {
    hide Reach, PieceText;
    if body == [] {
      assert BodyText(body) + s == s;
    } else {
      var rest := BodyText(body[1..]) + s;
      assert BodyText(body) + s == PieceText(body[0]) + rest;
      BodyRead(body[1..], s, open);
      PieceRead(body[0], rest, open);
    }
  }

  lemma QuoteRead(s: string, open: seq<char>, inside: bool)
    ensures Reach([QUOTE] + s, open, inside) == Reach(s, open, !inside)
  {
    assert ([QUOTE] + s)[1..] == s;
  }

  lemma QuotedRead(body: seq<Piece>, s: string, open: seq<char>)
    requires BodyValid(body)
    ensures Reach(Quoted(body) + s, open, false) == Reach(s, open, false)
  {
    hide Reach;
    assert Quoted(body) + s == [QUOTE] + (BodyText(body) + ([QUOTE] + s));
    QuoteRead(BodyText(body) + ([QUOTE] + s), open, false);
    BodyRead(body, [QUOTE] + s, open);
    QuoteRead(s, open, true);
  }

  // --------------------------------------------------------------------------- values

  lemma OpenRead(bracket: char, s: string, open: seq<char>)
    requires Opens(bracket)
    ensures Reach([bracket] + s, open, false) == Reach(s, open + [bracket], false)
  {
    assert ([bracket] + s)[1..] == s;
  }

  lemma CloseRead(bracket: char, close: char, s: string, open: seq<char>)
    requires (bracket == '[' && close == ']') || (bracket == '{' && close == '}')
    ensures Reach([close] + s, open + [bracket], false) == Max(|open| + 1, Reach(s, open, false))
  {
    hide Reach;
    var t, stack := [close] + s, open + [bracket];
    assert t[1..] == s && stack[..|stack| - 1] == open;
    TopClosed(t, stack);
  }

  lemma TopClosed(t: string, stack: seq<char>)
    requires t != "" && stack != [] && Closes(t[0]) && t[0] == Partner(stack[|stack| - 1])
    ensures Reach(t, stack, false) == Max(|stack|, Reach(t[1..], stack[..|stack| - 1], false))
  {
  }

  lemma EnclosedRead(bracket: char, inner: string, close: char, d: nat, s: string, open: seq<char>)
    requires (bracket == '[' && close == ']') || (bracket == '{' && close == '}')
    requires Reach(inner + ([close] + s), open + [bracket], false)
             == Max(|open| + 1 + d, Reach([close] + s, open + [bracket], false))
    ensures Reach(([bracket] + (inner + [close])) + s, open, false) == Max(|open| + 1 + d, Reach(s, open, false))
  {
    hide Reach;
    assert ([bracket] + (inner + [close])) + s == [bracket] + (inner + ([close] + s));
    OpenRead(bracket, inner + ([close] + s), open);
    CloseRead(bracket, close, s, open);
  }

  lemma {:induction false} ValueRead(j: Json, s: string, open: seq<char>)
    requires Valid(j)
    ensures Reach(TextOf(j) + s, open, false) == Max(|open| + Depth(j), Reach(s, open, false))
    decreases j, 1
  {
    hide Reach, Inert, Digits, BodyValid, Blank;
    ReachAtLeast(s, open, false);
    match j
    case Literal(_) => ScalarInert(j); InertRead(TextOf(j), s, open);
    case Numeral(_, _, _, _) => ScalarInert(j); InertRead(TextOf(j), s, open);
    case Str(body) => QuotedRead(body, s, open);
    case Array(pad, items) =>
      ReachAtLeast("]" + s, open + ['['], false);
      if items == [] { BlankRead(pad, "]" + s, open + ['[']); } else { ElementsRead(items, "]" + s, open + ['[']); }
      EnclosedRead('[', if items == [] then pad else ElementsText(items), ']', ElementsDepth(items), s, open);
    case Object(pad, members) =>
      ReachAtLeast("}" + s, open + ['{'], false);
      if members == [] { BlankRead(pad, "}" + s, open + ['{']); } else { MembersRead(members, "}" + s, open + ['{']); }
      EnclosedRead('{', if members == [] then pad else MembersText(members), '}', MembersDepth(members), s, open);
  }

  lemma PlainRead(c: char, s: string, open: seq<char>)
    requires c == ',' || c == ':'
    ensures Reach([c] + s, open, false) == Reach(s, open, false)
  {
    assert ([c] + s)[1..] == s;
  }

  lemma {:induction false} ElementsRead(items: seq<Element>, s: string, open: seq<char>)
    requires items != [] && ElementsValid(items)
    ensures Reach(ElementsText(items) + s, open, false) == Max(|open| + ElementsDepth(items), Reach(s, open, false))
    decreases items, 0
  {
    hide Reach, Inert, Digits, BodyValid, Blank;
    var e := items[0];
    var tail := if |items| == 1 then s else "," + (ElementsText(items[1..]) + s);
    assert ElementsText(items) + s == e.before + (TextOf(e.value) + (e.after + tail));
    BlankRead(e.before, TextOf(e.value) + (e.after + tail), open);
    ValueRead(e.value, e.after + tail, open);
    BlankRead(e.after, tail, open);
    if |items| > 1 {
      PlainRead(',', ElementsText(items[1..]) + s, open);
      ElementsRead(items[1..], s, open);
    }
  }

  lemma {:induction false} MemberRead(m: Member, s: string, open: seq<char>)
    requires MembersValid([m])
    ensures Reach(MemberText(m) + s, open, false) == Max(|open| + Depth(m.value), Reach(s, open, false))
    decreases m, 0
  {
    hide Reach, Inert, Digits, BodyValid, Blank, Quoted;
    var v, q := TextOf(m.value), Quoted(m.name);
    var u5 := v + m.after;
    var u4 := m.gap + u5;
    var u3 := ":" + u4;
    var u2 := m.mid + u3;
    Reassociate(m.before, q + u2, s);
    Reassociate(q, u2, s);
    Reassociate(m.mid, u3, s);
    Reassociate(":", u4, s);
    Reassociate(m.gap, u5, s);
    Reassociate(v, m.after, s);
    BlankRead(m.before, (q + u2) + s, open);
    QuotedRead(m.name, u2 + s, open);
    BlankRead(m.mid, u3 + s, open);
    PlainRead(':', u4 + s, open);
    BlankRead(m.gap, u5 + s, open);
    ValueRead(m.value, m.after + s, open);
    BlankRead(m.after, s, open);
  }

  lemma {:induction false} MembersRead(members: seq<Member>, s: string, open: seq<char>)
    requires members != [] && MembersValid(members)
    ensures Reach(MembersText(members) + s, open, false) == Max(|open| + MembersDepth(members), Reach(s, open, false))
    decreases members, 0
  {
    hide Reach, Inert, Digits, BodyValid, Blank, MemberText;
    var tail := if |members| == 1 then s else "," + (MembersText(members[1..]) + s);
    assert MembersText(members) + s == MemberText(members[0]) + tail;
    MemberRead(members[0], tail, open);
    if |members| > 1 {
      PlainRead(',', MembersText(members[1..]) + s, open);
      MembersRead(members[1..], s, open);
    } else {
      ReachAtLeast(s, open, false);
    }
  }

  /** Every way of writing a value takes the reader to the container depth of the value, which is the computed one. */
  lemma ReadersReachDepth(before: string, j: Json, after: string)
    requires Valid(j) && Blank(before) && Blank(after)
    ensures Reach(Document(before, j, after), [], false) == Depth(j) == NestingDepth(Document(before, j, after))
  {
    hide Reach, Blank, Inert, NestingDepth;
    BlankRead(before, TextOf(j) + after, []);
    ValueRead(j, after, []);
    assert after + "" == after;
    BlankRead(after, "", []);
    NothingRead();
    DepthExactOnJson(before, j, after);
  }

  lemma NothingRead()
    ensures Reach("", [], false) == 0
  {
  }
}
