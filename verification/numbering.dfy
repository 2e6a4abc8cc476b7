/** Numbers for structured values, no two values sharing one: what a hash without collisions can look like. */
module Numbering {

  function Triangle(n: nat): nat { if n == 0 then 0 else Triangle(n - 1) + n }

  lemma {:induction false} TriangleGrows(m: nat, n: nat)
    requires m < n
    ensures Triangle(m) + m < Triangle(n)
  {
    if m < n - 1 { TriangleGrows(m, n - 1); }
  }

  /** Two numbers as one. */
  function Pair(a: nat, b: nat): nat { Triangle(a + b) + b }

  lemma PairInjective(a: nat, b: nat, c: nat, d: nat)
    requires Pair(a, b) == Pair(c, d)
    ensures a == c && b == d
  {
    if a + b < c + d { TriangleGrows(a + b, c + d); }
    if c + d < a + b { TriangleGrows(c + d, a + b); }
  }

  /** One number for each integer. */
  function Folded(i: int): nat { if i < 0 then -2 * i - 1 else 2 * i }

  /** One number for each list of numbers. */
  function Coded(xs: seq<nat>): nat { if xs == [] then 0 else 1 + Pair(xs[0], Coded(xs[1..])) }

  lemma {:induction false} CodedInjective(xs: seq<nat>, ys: seq<nat>)
    requires Coded(xs) == Coded(ys)
    ensures xs == ys
  {
    hide Pair;
    if xs != [] && ys != [] {
      PairInjective(xs[0], Coded(xs[1..]), ys[0], Coded(ys[1..]));
      CodedInjective(xs[1..], ys[1..]);
      assert xs == [xs[0]] + xs[1..] && ys == [ys[0]] + ys[1..];
    }
  }

  function Letters(s: string): (r: seq<nat>)
    ensures |r| == |s| && forall i | 0 <= i < |s| :: r[i] == s[i] as nat
  {
    seq(|s|, i requires 0 <= i < |s| => s[i] as nat)
  }

  function CodedText(s: string): nat { Coded(Letters(s)) }

  lemma CodedTextInjective(s: string, t: string)
    requires CodedText(s) == CodedText(t)
    ensures s == t
  {
    hide Coded;
    CodedInjective(Letters(s), Letters(t));
    var a, b := Letters(s), Letters(t);
    assert forall i | 0 <= i < |s| :: a[i] as char == s[i] && b[i] as char == t[i];
  }
}
