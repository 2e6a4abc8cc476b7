/**
 Bollinger deviation, drawdown and the signal suite on top of the other indicators. Square roots are
 a parameter: any function giving the exact nonnegative root.
 */
module Signals {
  import opened Prelude
  import opened Indicators

  type Root = real -> real

  ghost predicate IsRoot(root: Root) {
    forall v | v >= 0.0 :: root(v) >= 0.0 && Square(root(v)) == v
  }

  function Square(d: real): (q: real)
    ensures q >= 0.0
  {
    Times(d, d)
  }

  // ------------------------------------------------------------- Bollinger deviation

  function Deviations(s: seq<real>, mu: real): (d: seq<real>)
    ensures |d| == |s| && forall i | 0 <= i < |d| :: d[i] == s[i] - mu
  {
    seq(|s|, i requires 0 <= i < |s| => s[i] - mu)
  }

  function Squares(d: seq<real>): (q: seq<real>)
    ensures |q| == |d| && forall i | 0 <= i < |q| :: q[i] == Square(d[i])
  {
    seq(|d|, i requires 0 <= i < |d| => Square(d[i]))
  }

  function Variance(s: seq<real>): (v: real)
    requires s != []
    ensures v >= 0.0
  {
    var q := Squares(Deviations(s, Mean(s)));
    SumNonnegative(q);
    RatioNonnegative(Sum(q), |s| as real);
    Mean(q)
  }

  function Standardised(root: Root, s: seq<real>): real
    requires s != []
  {
    var sd := root(Variance(s));
    if sd == 0.0 then 0.0 else Over(s[|s| - 1] - Mean(s), sd)
  }

  method BollingerZ(root: Root, s: seq<real>, w: nat) returns (r: Option<real>)
    requires 1 <= w
    ensures r == if |s| < w then None else Some(Standardised(root, s[|s| - w..]))
  {
    hide Over, Times;
    if |s| < w { return None; }
    var window := s[|s| - w..];
    var total := Total(window);
    var mu := Over(total, w as real);
    var q: seq<real> := [];
    for i := 0 to |window|
      invariant |q| == i && forall j | 0 <= j < i :: q[j] == Square(window[j] - mu)
    {
      var d := window[i] - mu;
      q := q + [Times(d, d)];
    }
    assert q == Squares(Deviations(window, mu));
    var spread := Total(q);
    var sd := root(Over(spread, w as real));
    r := Some(if sd == 0.0 then 0.0 else Over(window[|window| - 1] - mu, sd));
  }

  lemma {:induction false} SumShifted(s: seq<real>, mu: real)
    ensures Sum(Deviations(s, mu)) == Sum(s) - Times(mu, |s| as real)
  {
    hide Times;
    if s == [] {
      TimesZero(mu);
    } else {
      var n := |s| - 1;
      assert Deviations(s, mu)[..n] == Deviations(s[..n], mu);
      SumShifted(s[..n], mu);
      Distribute(mu, n as real, 1.0);
      TimesOne(mu);
      assert |s| as real == n as real + 1.0;
    }
  }

  lemma DeviationsCancel(s: seq<real>)
    requires s != []
    ensures Sum(Deviations(s, Mean(s))) == 0.0
  {
    hide Times, Over, Sum;
    SumShifted(s, Mean(s));
    OverTimes(Sum(s), |s| as real);
  }

  /** The step of the bound on squares of sums. */
  lemma SquareStep(t: real, x: real, m: real, q: real)
    requires m >= 0.0 && q >= 0.0 && Square(t) <= Times(m, q) && (m == 0.0 ==> t == 0.0)
    ensures Square(t + x) <= Times(m + 1.0, q + Square(x))
  {
    assert (t + x) * (t + x) == t * t + 2.0 * (t * x) + x * x;
    assert (m + 1.0) * (q + x * x) == m * q + q + m * (x * x) + x * x;
    if m == 0.0 {
      assert t * x == 0.0;
    } else {
      CrossTerm(t, x, m, q);
    }
  }

  lemma PositiveFactor(m: real, g: real)
    requires m > 0.0 && Times(m, g) >= 0.0
    ensures g >= 0.0
  {
  }

  lemma CrossTerm(t: real, x: real, m: real, q: real)
    requires m > 0.0 && t * t <= m * q
    ensures 2.0 * (t * x) <= q + m * (x * x)
  {
    var y := m * x - t;
    assert y * y >= 0.0;
    assert y * y == m * (m * (x * x)) - m * (2.0 * (t * x)) + t * t;
    var gap := q + m * (x * x) - 2.0 * (t * x);
    assert m * gap >= 0.0;
    PositiveFactor(m, gap);
  }

  lemma {:induction false} SquareOfSum(d: seq<real>)
    ensures Square(Sum(d)) <= Times(|d| as real, Sum(Squares(d)))
  {
    hide Times, Square;
    if d == [] {
      Commute(0.0, 0.0);
      SquareZero();
    } else {
      var n := |d| - 1;
      SquareOfSum(d[..n]);
      assert Squares(d)[..n] == Squares(d[..n]);
      SumNonnegative(Squares(d[..n]));
      assert n == 0 ==> d[..n] == [];
      SquareStep(Sum(d[..n]), d[n], n as real, Sum(Squares(d[..n])));
      assert |d| as real == n as real + 1.0;
    }
  }

  lemma SquareZero()
    ensures Square(0.0) == 0.0 && Times(0.0, 0.0) == 0.0
  {
  }

  /** Deviations that cancel out: the last one is bounded by all of them together. */
  lemma LastDeviation(d: seq<real>)
    requires d != [] && Sum(d) == 0.0
    ensures Times(|d| as real, Square(d[|d| - 1])) <= Times(|d| as real - 1.0, Sum(Squares(d)))
  {
    hide Times;
    var n := |d| - 1;
    var x, t, q := d[n], Sum(d[..n]), Sum(Squares(d[..n]));
    SquareOfSum(d[..n]);
    assert Squares(d)[..n] == Squares(d[..n]);
    assert t == -x;
    SquareNegated(x);
    assert n as real == |d| as real - 1.0;
    Distribute(Square(x), n as real, 1.0);
    Distribute(n as real, q, Square(x));
    Commute(Square(x), |d| as real);
    Commute(Square(x), n as real);
    TimesOne(Square(x));
  }

  lemma SquareNegated(x: real)
    ensures Square(-x) == Square(x)
  {
  }

  lemma SquareScaled(c: real, d: real)
    ensures Square(Times(c, d)) == Times(Square(c), Square(d))
  {
  }

  lemma SquareNonzero(b: real)
    requires b != 0.0
    ensures Square(b) > 0.0
  {
    hide Times;
    SquareNegated(b);
    TimesPositive(if b > 0.0 then b else -b, if b > 0.0 then b else -b);
  }

  lemma SquareOver(a: real, b: real)
    requires b != 0.0
    ensures Square(b) > 0.0 && Square(Over(a, b)) == Over(Square(a), Square(b))
  {
    hide Square, Times, Over;
    var q := Over(a, b);
    SquareNonzero(b);
    OverTimes(a, b);
    SquareScaled(q, b);
    OverUnique(Square(a), Square(b), Square(q));
  }

  /** The last price of a window of `w` is never more than the root of `w - 1` deviations from the mean. */
  lemma DeviationBounded(root: Root, s: seq<real>)
    requires IsRoot(root) && s != []
    ensures Square(Standardised(root, s)) <= |s| as real - 1.0
  {
    hide Times, Over, Square, Sum, Deviations, Squares;
    var n := |s| as real;
    var mu := Mean(s);
    var d := Deviations(s, mu);
    var x := s[|s| - 1] - mu;
    var sd := root(Variance(s));
    if sd == 0.0 {
      SquareZero();
    } else {
      DeviationsCancel(s);
      LastDeviation(d);
      var total := Sum(Squares(d));
      assert Square(sd) == Variance(s) == Over(total, n);
      SquareOver(x, sd);
      BoundFromTotals(Square(x), total, n, Square(sd));
    }
  }

  lemma BoundFromTotals(x: real, total: real, n: real, v: real)
    requires n >= 1.0 && v == Over(total, n) && v > 0.0 && Times(n, x) <= Times(n - 1.0, total)
    ensures Over(x, v) <= n - 1.0
  {
    assert total == v * n;
    assert (n - 1.0) * (v * n) == n * ((n - 1.0) * v);
    var gap := (n - 1.0) * v - x;
    assert Times(n, gap) == n * ((n - 1.0) * v) - n * x;
    PositiveFactor(n, gap);
    var q := x / v;
    assert q * v == x;
    assert Times(v, n - 1.0 - q) == gap;
    PositiveFactor(v, n - 1.0 - q);
  }

  lemma VarianceScaled(c: real, s: seq<real>)
    requires s != []
    ensures Variance(Scaled(c, s)) == Times(Square(c), Variance(s))
  {
    hide Times, Square, Mean;
    MeanScaled(c, s);
    var mu, t := Mean(s), Scaled(c, s);
    forall i | 0 <= i < |s|
      ensures Squares(Deviations(t, Mean(t)))[i] == Scaled(Square(c), Squares(Deviations(s, mu)))[i]
    {
      Distribute(c, s[i], mu);
      SquareScaled(c, s[i] - mu);
    }
    assert Squares(Deviations(t, Mean(t))) == Scaled(Square(c), Squares(Deviations(s, mu)));
    MeanScaled(Square(c), Squares(Deviations(s, mu)));
  }

  lemma RootsEqual(a: real, b: real)
    requires a >= 0.0 && b >= 0.0 && Square(a) == Square(b)
    ensures a == b
  {
    if a + b != 0.0 {
      assert Times(a - b, a + b) == a * a - b * b;
      OverUnique(0.0, a + b, a - b);
      OverUnique(0.0, a + b, 0.0);
    }
  }

  lemma StandardisedScaled(root: Root, c: real, s: seq<real>)
    requires IsRoot(root) && c > 0.0 && s != []
    ensures Standardised(root, Scaled(c, s)) == Standardised(root, s)
  {
    hide Times, Over, Square, Variance, Mean;
    var sd, mu := root(Variance(s)), Mean(s);
    VarianceScaled(c, s);
    MeanScaled(c, s);
    SquareScaled(c, sd);
    TimesPositive(c, sd);
    RootsEqual(root(Variance(Scaled(c, s))), Times(c, sd));
    if sd != 0.0 {
      Distribute(c, s[|s| - 1], mu);
      CommonFactor(c, s[|s| - 1] - mu, sd);
    }
  }

  // ------------------------------------------------------------------- drawdown

  /** What a program run yields: a number, a refusal, or an arithmetic fault. */
  datatype Answer = Computed(value: real) | Blocked | ZeroDivision

  predicate AllPositive(s: seq<real>) {
    forall i | 0 <= i < |s| :: s[i] > 0.0
  }

  /** The relative change from one price to another. */
  function Change(from: real, to: real): real
    requires from != 0.0
  {
    Over(to - from, from)
  }

  /** `m` is the least relative change from any price to a later one. */
  ghost predicate LeastChange(s: seq<real>, m: real)
    requires AllPositive(s)
  {
    && (forall i, j | 0 <= i <= j < |s| :: m <= Change(s[i], s[j]))
    && exists i, j :: 0 <= i <= j < |s| && m == Change(s[i], s[j])
  }

  /** The largest price so far. */
  function Peak(s: seq<real>): real
    requires s != []
  {
    if |s| == 1 then s[0] else Larger(Peak(s[..|s| - 1]), s[|s| - 1])
  }

  function Larger(a: real, b: real): real { if b > a then b else a }

  lemma HigherPeak(v: real, a: real, b: real)
    requires v > 0.0 && 0.0 < a <= b
    ensures Change(b, v) <= Change(a, v)
  {
  }

  lemma {:induction false} PeakIsMax(s: seq<real>)
    requires s != []
    ensures forall i | 0 <= i < |s| :: s[i] <= Peak(s)
    ensures exists i :: 0 <= i < |s| && s[i] == Peak(s)
  {
    var n := |s| - 1;
    if n > 0 {
      PeakIsMax(s[..n]);
      assert forall i | 0 <= i < n :: s[i] == s[..n][i];
      var k :| 0 <= k < n && s[..n][k] == Peak(s[..n]);
      assert s[if s[n] > Peak(s[..n]) then n else k] == Peak(s);
    } else {
      assert s[0] == Peak(s);
    }
  }

  function Lesser(a: real, b: real): real { if b < a then b else a }

  lemma FirstDrawdown(s: seq<real>)
    requires AllPositive(s) && s != []
    ensures Change(Peak(s[..1]), s[0]) == 0.0 && LeastChange(s[..1], 0.0)
  {
  }

  lemma NextDrawdown(s: seq<real>, i: nat, worst: real)
    requires AllPositive(s) && 0 < i < |s| && LeastChange(s[..i], worst)
    ensures Peak(s[..i + 1]) > 0.0
    ensures LeastChange(s[..i + 1], Lesser(worst, Change(Peak(s[..i + 1]), s[i])))
  {
    hide Change, Peak;
    var t := s[..i + 1];
    PeakIsMax(t);
    var high :| 0 <= high < |t| && t[high] == Peak(t);
    var drop := Change(Peak(t), s[i]);
    assert drop == Change(t[high], t[i]);
    forall a, b | 0 <= a <= b < |t| ensures Lesser(worst, drop) <= Change(t[a], t[b]) {
      if b == i {
        HigherPeak(s[i], t[a], Peak(t));
      } else {
        assert s[..i][a] == t[a] && s[..i][b] == t[b];
      }
    }
    if drop >= worst {
      var a, b :| 0 <= a <= b < i && worst == Change(s[..i][a], s[..i][b]);
      assert worst == Change(t[a], t[b]);
    }
  }

  /**
   The running drawdown. On positive prices it is the least relative change between any two moments;
   a running peak of zero is a division by zero.
   */
  method MaxDrawdown(s: seq<real>) returns (r: Answer)
    ensures r == Blocked <==> |s| < 2
    ensures r == ZeroDivision <==> |s| >= 2 && exists n :: 1 <= n <= |s| && Peak(s[..n]) == 0.0
    ensures AllPositive(s) && |s| >= 2 ==> r.Computed? && LeastChange(s, r.value)
  {
    hide LeastChange, Over;
    if |s| < 2 { return Blocked; }
    var peak, worst := s[0], 0.0;
    for i := 0 to |s|
      invariant i == 0 ==> peak == s[0] && worst == 0.0
      invariant i > 0 ==> peak == Peak(s[..i])
      invariant forall n | 1 <= n <= i :: Peak(s[..n]) != 0.0
      invariant i > 0 && AllPositive(s) ==> LeastChange(s[..i], worst)
    {
      assert s[..i + 1][..i] == s[..i];
      if s[i] > peak { peak := s[i]; }
      assert peak == Peak(s[..i + 1]);
      if AllPositive(s) {
        if i == 0 { FirstDrawdown(s); } else { NextDrawdown(s, i, worst); }
      }
      if peak == 0.0 { return ZeroDivision; }
      var drop := Over(s[i] - peak, peak);
      if drop < worst { worst := drop; }
    }
    assert s[..|s|] == s;
    r := Computed(worst);
  }

  lemma ChangeScaled(c: real, from: real, to: real)
    requires c > 0.0 && from > 0.0
    ensures Times(c, from) > 0.0 && Change(Times(c, from), Times(c, to)) == Change(from, to)
  {
  }

  /** Drawdown does not depend on the unit prices are quoted in. */
  lemma LeastChangeScaled(c: real, s: seq<real>, m: real)
    requires c > 0.0 && AllPositive(s)
    ensures AllPositive(Scaled(c, s))
    ensures LeastChange(Scaled(c, s), m) <==> LeastChange(s, m)
  {
    hide Times, Change;
    forall i | 0 <= i < |s| ensures Scaled(c, s)[i] > 0.0 { TimesPositive(c, s[i]); }
    forall i, j | 0 <= i < |s| && 0 <= j < |s| ensures Change(Scaled(c, s)[i], Scaled(c, s)[j]) == Change(s[i], s[j]) {
      ChangeScaled(c, s[i], s[j]);
    }
    var t := Scaled(c, s);
    if LeastChange(t, m) {
      var i, j :| 0 <= i <= j < |t| && m == Change(t[i], t[j]);
      assert m == Change(s[i], s[j]);
    }
    if LeastChange(s, m) {
      var i, j :| 0 <= i <= j < |s| && m == Change(s[i], s[j]);
      assert m == Change(t[i], t[j]);
    }
  }

  // --------------------------------------------------------------- the signal suite

  /** One point of a submitted series. */
  datatype Point = Finite(value: real) | NonFinite | NonNumeric

  predicate Measurable(points: seq<Point>, least: nat) {
    |points| >= least && forall i | 0 <= i < |points| :: points[i].Finite?
  }

  /** Fails closed: a short series or one point that is no finite number refuses the whole. */
  method RequireSeries(points: seq<Point>, least: nat) returns (r: Option<seq<real>>)
    ensures r.Some? <==> Measurable(points, least)
    ensures r.Some? ==> |r.value| == |points| && forall i | 0 <= i < |points| :: points[i] == Finite(r.value[i])
  {
    if |points| < least { return None; }
    var out: seq<real> := [];
    for i := 0 to |points|
      invariant |out| == i && forall j | 0 <= j < i :: points[j] == Finite(out[j])
    {
      if !points[i].Finite? { return None; }
      out := out + [points[i].value];
    }
    r := Some(out);
  }

  function Sma(s: seq<real>, w: nat): real
    requires 1 <= w <= |s|
  {
    Mean(s[|s| - w..])
  }

  datatype Verdict = Bullish | Bearish | Neutral

  function Side(favourable: bool): int { if favourable then 1 else -1 }

  function Extreme(x: real, low: real, high: real): int {
    if x < low then 1 else if x > high then -1 else 0
  }

  const LONGEST: nat := 35

  /** The four votes, from the indicators themselves. */
  function VoteScore(root: Root, s: seq<real>): int
    requires |s| >= LONGEST
  {
    Side(Sma(s, 10) > Sma(s, 30)) + Side(Histogram(s, 12, 26, 9) > 0.0)
    + Extreme(Rsi(s, 14), 30.0, 70.0) + Extreme(Standardised(root, s[|s| - 20..]), -2.0, 2.0)
  }

  function VerdictOf(votes: int): Verdict {
    if votes >= 2 then Bullish else if votes <= -2 then Bearish else Neutral
  }

  method SignalSuite(root: Root, points: seq<Point>) returns (r: Option<(Verdict, int)>)
    ensures r.Some? <==> Measurable(points, LONGEST)
    ensures forall s: seq<real> | |s| == |points| && (forall i | 0 <= i < |s| :: points[i] == Finite(s[i])) ::
              r.Some? ==> r.value == (VerdictOf(VoteScore(root, s)), VoteScore(root, s))
  {
    hide Mean, Histogram, Rsi, Standardised, Ema, Over;
    var input := RequireSeries(points, LONGEST);
    if input.None? { return None; }
    var s := input.value;
    var fast := Total(s[|s| - 10..]);
    var slow := Total(s[|s| - 30..]);
    var m := ComputeMacd(s, 12, 26, 9);
    var strength := ComputeRsi(s, 14);
    var z := BollingerZ(root, s, 20);
    assert MeanIs(s, fast, 10) && MeanIs(s, slow, 30) by { Averages(s, fast, slow); }
    assert m.macd.histogram == Histogram(s, 12, 26, 9) by { HistogramIs(s, 12, 26, 9); }
    var votes := 0;
    votes := votes + (if Over(fast, 10.0) > Over(slow, 30.0) then 1 else -1);
    votes := votes + (if m.macd.histogram > 0.0 then 1 else -1);
    votes := votes + (if strength.value < 30.0 then 1 else if strength.value > 70.0 then -1 else 0);
    votes := votes + (if z.value < -2.0 then 1 else if z.value > 2.0 then -1 else 0);
    var verdict := if votes >= 2 then Bullish else if votes <= -2 then Bearish else Neutral;
    assert votes == VoteScore(root, s);
    assert forall t: seq<real> | |t| == |points| && (forall i | 0 <= i < |t| :: points[i] == Finite(t[i])) :: t == s;
    r := Some((verdict, votes));
  }

  predicate MeanIs(s: seq<real>, total: real, w: nat)
    requires 1 <= w <= |s|
  {
    Over(total, w as real) == Sma(s, w)
  }

  lemma Averages(s: seq<real>, fast: real, slow: real)
    requires |s| >= LONGEST && fast == Sum(s[|s| - 10..]) && slow == Sum(s[|s| - 30..])
    ensures MeanIs(s, fast, 10) && MeanIs(s, slow, 30)
  {
  }

  lemma HistogramIs(s: seq<real>, fast: nat, slow: nat, signal: nat)
    requires 1 <= fast <= slow && 1 <= signal && slow + signal <= |s|
    ensures var line := Spreads(s, fast, slow);
      Histogram(s, fast, slow, signal) == line[|line| - 1] - Ema(line, signal)
  {
  }

  lemma TimesOrder(c: real, a: real, b: real)
    requires c > 0.0
    ensures Times(c, a) > Times(c, b) <==> a > b
  {
  }

  lemma SmaScaled(c: real, s: seq<real>, w: nat)
    requires 1 <= w <= |s|
    ensures Sma(Scaled(c, s), w) == Times(c, Sma(s, w))
  {
    hide Times, Mean;
    assert Scaled(c, s)[|s| - w..] == Scaled(c, s[|s| - w..]);
    MeanScaled(c, s[|s| - w..]);
  }

  /** Quoting every price in another unit changes neither the votes nor the verdict. */
  lemma VotesIgnoreUnit(root: Root, c: real, s: seq<real>)
    requires IsRoot(root) && c > 0.0 && |s| >= LONGEST
    ensures VoteScore(root, Scaled(c, s)) == VoteScore(root, s)
  {
    hide Times, Sma, Histogram, Rsi, Standardised;
    SmaScaled(c, s, 10);
    SmaScaled(c, s, 30);
    TimesOrder(c, Sma(s, 10), Sma(s, 30));
    HistogramScaled(c, s, 12, 26, 9);
    TimesOrder(c, Histogram(s, 12, 26, 9), 0.0);
    TimesZero(c);
    RsiScaled(c, s, 14);
    assert Scaled(c, s)[|s| - 20..] == Scaled(c, s[|s| - 20..]);
    StandardisedScaled(root, c, s[|s| - 20..]);
  }
}
