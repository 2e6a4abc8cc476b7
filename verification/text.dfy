/** Splitting text at a character, and finding one text inside another. */
module Text {

  /** The same words with one more character in front. */
  function Prepend(c: char, words: seq<string>): (r: seq<string>)
    requires words != []
    ensures r != []
  {
    [[c] + words[0]] + words[1..]
  }

  /** Python's `s.split(q)` for a one-character separator. */
  function Split(s: string, q: char): (words: seq<string>)
    ensures words != []
  {
    if s == "" then [""]
    else if s[0] == q then [""] + Split(s[1..], q)
    else Prepend(s[0], Split(s[1..], q))
  }

  /** The words of two adjoining texts: the last and the first one run together. */
  function Glue(a: seq<string>, b: seq<string>): (r: seq<string>)
    requires a != [] && b != []
    ensures |r| == |a| + |b| - 1
  {
    a[..|a| - 1] + [a[|a| - 1] + b[0]] + b[1..]
  }

  lemma GluePrepend(c: char, a: seq<string>, b: seq<string>)
    requires a != [] && b != []
    ensures Glue(Prepend(c, a), b) == Prepend(c, Glue(a, b))
  {
    if |a| == 1 {
      assert ([c] + a[0]) + b[0] == [c] + (a[0] + b[0]);
    }
  }

  lemma GlueCons(w: string, a: seq<string>, b: seq<string>)
    requires a != [] && b != []
    ensures Glue([w] + a, b) == [w] + Glue(a, b)
  {
  }

  lemma {:induction false} SplitConcat(a: string, b: string, q: char)
    ensures Split(a + b, q) == Glue(Split(a, q), Split(b, q))
  {
    if a == "" {
      assert a + b == b;
      assert [""][0] + Split(b, q)[0] == Split(b, q)[0];
    } else {
      SplitConcat(a[1..], b, q);
      assert (a + b)[1..] == a[1..] + b;
      if a[0] == q {
        GlueCons("", Split(a[1..], q), Split(b, q));
      } else {
        GluePrepend(a[0], Split(a[1..], q), Split(b, q));
      }
    }
  }

  lemma {:induction false} SplitWord(w: string, q: char)
    requires q !in w
    ensures Split(w, q) == [w]
  {
    if w != "" {
      SplitWord(w[1..], q);
      assert [w[0]] + w[1..] == w;
    }
  }

  predicate StartsWith(s: string, p: string) {
    |p| <= |s| && s[..|p|] == p
  }

  lemma StartsSplit(s: string, p: string, q: string)
    ensures StartsWith(s, p + q) <==> StartsWith(s, p) && StartsWith(s[|p|..], q)
  {
    assert |p + q| <= |s| ==> s[..|p + q|] == s[..|p|] + s[|p|..][..|q|];
    assert (p + q)[..|p|] == p && (p + q)[|p|..] == q;
  }

  lemma StartsHead(s: string, p: string)
    requires s != "" && p != ""
    ensures StartsWith(s, p) ==> s[0] == p[0]
  {
  }

  /** `p` occurs somewhere in `s`: SQLite's `instr(s, p) > 0`. */
  predicate Occurs(s: string, p: string) {
    exists i :: 0 <= i <= |s| && StartsWith(s[i..], p)
  }

  lemma OccursStep(s: string, p: string)
    requires s != ""
    ensures Occurs(s, p) <==> StartsWith(s, p) || Occurs(s[1..], p)
  {
    if Occurs(s, p) {
      var i :| 0 <= i <= |s| && StartsWith(s[i..], p);
      if i == 0 { assert s[0..] == s; } else { assert s[i..] == s[1..][i - 1..]; }
    }
    if StartsWith(s, p) { assert s[0..] == s; }
    if Occurs(s[1..], p) {
      var i :| 0 <= i <= |s[1..]| && StartsWith(s[1..][i..], p);
      assert s[1..][i..] == s[i + 1..];
    }
  }

  /** A text begins with a word and a separator exactly when that word is its first one. */
  lemma {:induction false} FirstWord(s: string, w: string, q: char)
    requires q !in w
    ensures StartsWith(s, w + [q]) <==> |Split(s, q)| >= 2 && Split(s, q)[0] == w
    ensures StartsWith(s, w + [q]) ==> Split(s[|w| + 1..], q) == Split(s, q)[1..]
  {
    if s == "" {
    } else if w == "" {
      assert w + [q] == [q];
      assert s[..1] == [s[0]];
    } else {
      FirstWord(s[1..], w[1..], q);
      assert w + [q] == [w[0]] + (w[1..] + [q]);
      if s[0] == w[0] {
        StartsSplit(s, [w[0]], w[1..] + [q]);
        assert |w| + 1 <= |s| ==> s[|w| + 1..] == s[1..][|w|..];
        assert [w[0]] + w[1..] == w;
        var r := Split(s[1..], q);
        assert [s[0]] + r[0] == w <==> r[0] == w[1..] by {
          if [s[0]] + r[0] == w { assert r[0] == w[1..]; }
        }
      } else {
        StartsHead(s, w + [q]);
        assert Split(s, q)[0] == "" || Split(s, q)[0][0] == s[0];
      }
    }
  }
}
