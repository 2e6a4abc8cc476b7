/**
 The indicators and the votes read off the prices: the weight of each price in an average, when the strength
 index reaches its ends and the thresholds, and which votes a series casts.
 */
module MarketVotes {
  import opened Prelude
  import opened Indicators
  import opened Signals

  // ---------------------------------------------------------------- closed weights

  function Power(x: real, n: nat): real { if n == 0 then 1.0 else Times(x, Power(x, n - 1)) }

  /** The sum of the prices, each with its weight. */
  function Weighted(weights: seq<real>, s: seq<real>): real
    requires |weights| == |s|
  {
    if s == [] then 0.0
    else Weighted(weights[..|s| - 1], s[..|s| - 1]) + Times(weights[|s| - 1], s[|s| - 1])
  }

  /**
   The weights of `n` prices where every price after the first `w` takes the share `k`: equal ones for the first
   `w`, and each price loses the share of every later one.
   */
  function Weights(n: nat, w: nat, k: real): (r: seq<real>)
    requires 1 <= w <= n
    ensures |r| == n
    ensures forall i | 0 <= i < w :: r[i] == Times(Power(1.0 - k, n - w), Over(1.0, w as real))
    ensures forall i | w <= i < n :: r[i] == Times(Power(1.0 - k, n - 1 - i), k)
  {
    seq(n, i requires 0 <= i < n =>
      if i < w then Times(Power(1.0 - k, n - w), Over(1.0, w as real)) else Times(Power(1.0 - k, n - 1 - i), k))
  }

  lemma {:induction false} WeightedScaled(c: real, weights: seq<real>, s: seq<real>)
    requires |weights| == |s|
    ensures Weighted(Scaled(c, weights), s) == Times(c, Weighted(weights, s))
  {
    if s == [] {
    } else {
      hide Times;
      var n := |s| - 1;
      ScaledFront(c, weights, n);
      WeightedScaled(c, weights[..n], s[..n]);
      Distribute(c, Weighted(weights[..n], s[..n]), Times(weights[n], s[n]));
      Associate(c, weights[n], s[n]);
    }
  }

  lemma Associate(a: real, b: real, c: real)
    ensures Times(Times(a, b), c) == Times(a, Times(b, c))
  {
  }

  lemma {:induction false} EqualWeights(v: real, s: seq<real>, weights: seq<real>)
    requires |weights| == |s| && forall i | 0 <= i < |s| :: weights[i] == v
    ensures Weighted(weights, s) == Times(v, Sum(s))
  {
    if s == [] {
    } else {
      hide Times;
      var n := |s| - 1;
      EqualWeights(v, s[..n], weights[..n]);
      Distribute(v, Sum(s[..n]), s[n]);
    }
  }

  lemma MeanWeighted(s: seq<real>, k: real)
    requires s != []
    ensures Mean(s) == Weighted(Weights(|s|, |s|, k), s)
  {
    hide Power, Weighted, Sum;
    var v := Over(1.0, |s| as real);
    assert Power(1.0 - k, 0) == 1.0 by { PowerZero(1.0 - k); }
    EqualWeights(v, s, Weights(|s|, |s|, k));
  }

  lemma PowerZero(x: real)
    ensures Power(x, 0) == 1.0
  {
  }

  /** One more price takes its share from all that came before. */
  lemma WeightsGrow(n: nat, w: nat, k: real)
    requires 1 <= w <= n
    ensures Weights(n + 1, w, k)[..n] == Scaled(1.0 - k, Weights(n, w, k))
    ensures Weights(n + 1, w, k)[n] == k
  {
    hide Over;
    var x := 1.0 - k;
    forall i | 0 <= i < n ensures Weights(n + 1, w, k)[i] == Scaled(x, Weights(n, w, k))[i] {
      if i < w {
        Associate(x, Power(x, n - w), Over(1.0, w as real));
      } else {
        Associate(x, Power(x, n - 1 - i), k);
      }
    }
  }

  /** The exponential average: every price after the first `w` takes the share 2/(w + 1). */
  lemma {:induction false} EmaWeights(s: seq<real>, w: nat)
    requires 1 <= w <= |s|
    ensures Ema(s, w) == Weighted(Weights(|s|, w, 2.0 / (w as real + 1.0)), s)
  {
    var k := 2.0 / (w as real + 1.0);
    if |s| == w {
      MeanWeighted(s, k);
    } else {
      hide Weights, Mean, Times;
      var n := |s| - 1;
      EmaWeights(s[..n], w);
      WeightsGrow(n, w, k);
      WeightedScaled(1.0 - k, Weights(n, w, k), s[..n]);
      Commute(k, s[n]);
      Commute(1.0 - k, Ema(s[..n], w));
    }
  }

  lemma SmoothBlends(a: real, v: real, p: nat)
    requires p >= 1
    ensures Smooth(a, v, p) == Times(1.0 - 1.0 / p as real, a) + Times(1.0 / p as real, v)
  {
    var q := p as real;
    assert a * (q - 1.0) / q == a - a / q;
  }

  /** Wilder's average: every move after the first `p` takes the share 1/p. */
  lemma {:induction false} WilderWeights(m: seq<real>, p: nat)
    requires 1 <= p <= |m|
    ensures Wilder(m, p) == Weighted(Weights(|m|, p, 1.0 / p as real), m)
  {
    var k := 1.0 / p as real;
    if |m| == p {
      MeanWeighted(m, k);
    } else {
      hide Weights, Mean, Times, Smooth;
      var n := |m| - 1;
      WilderWeights(m[..n], p);
      WeightsGrow(n, p, k);
      WeightedScaled(1.0 - k, Weights(n, p, k), m[..n]);
      SmoothBlends(Wilder(m[..n], p), m[n], p);
    }
  }

  // ------------------------------------------------------------------ strength index

  /** The ends of the index, its middle, and the two thresholds of the vote. */
  lemma StrengthExactly(gain: real, loss: real)
    requires gain >= 0.0 && loss >= 0.0
    ensures Strength(gain, loss) == 100.0 <==> loss == 0.0
    ensures Strength(gain, loss) == 0.0 <==> gain == 0.0 && loss > 0.0
    ensures Strength(gain, loss) > 50.0 <==> loss == 0.0 || gain > loss
    ensures Strength(gain, loss) < 30.0 <==> 7.0 * gain < 3.0 * loss
    ensures Strength(gain, loss) > 70.0 <==> loss == 0.0 || 3.0 * gain > 7.0 * loss
  {
    if loss > 0.0 { StrengthOnLoss(gain, loss); }
  }

  lemma StrengthOnLoss(gain: real, loss: real)
    requires gain >= 0.0 && loss > 0.0
    ensures Strength(gain, loss) < 100.0
    ensures Strength(gain, loss) == 0.0 <==> gain == 0.0
    ensures Strength(gain, loss) > 50.0 <==> gain > loss
    ensures Strength(gain, loss) < 30.0 <==> 7.0 * gain < 3.0 * loss
    ensures Strength(gain, loss) > 70.0 <==> 3.0 * gain > 7.0 * loss
  {
    StrengthIsShare(gain, loss);
    var q, t := Strength(gain, loss), gain + loss;
    hide Strength;
    Compare(q, 100.0, t, 100.0 * gain);
    Compare(q, 0.0, t, 100.0 * gain);
    Compare(q, 50.0, t, 100.0 * gain);
    Compare(q, 30.0, t, 100.0 * gain);
    Compare(q, 70.0, t, 100.0 * gain);
  }

  /** The index is the share of the gains in all moves, in percent. */
  lemma StrengthIsShare(gain: real, loss: real)
    requires gain >= 0.0 && loss > 0.0
    ensures Strength(gain, loss) * (gain + loss) == 100.0 * gain
  {
    var r := gain / loss;
    assert r * loss == gain;
    assert (1.0 + r) * loss == gain + loss;
    var u := 100.0 / (1.0 + r);
    assert u * (1.0 + r) == 100.0;
    assert u * (gain + loss) == 100.0 * loss;
  }

  lemma Compare(x: real, y: real, t: real, product: real)
    requires t > 0.0 && x * t == product
    ensures x > y <==> product > y * t
    ensures x < y <==> product < y * t
  {
  }

  /** The index rises with the gains and falls with the losses. */
  lemma StrengthRises(gain: real, more: real, loss: real)
    requires 0.0 <= gain < more && loss > 0.0
    ensures Strength(gain, loss) < Strength(more, loss)
    ensures gain > 0.0 ==> Strength(loss, gain) > Strength(loss, more)
  {
    hide Strength;
    StrengthIsShare(gain, loss);
    StrengthIsShare(more, loss);
    Smaller(100.0 - Strength(gain, loss), 100.0 - Strength(more, loss), gain + loss, more + loss);
    if gain > 0.0 {
      StrengthIsShare(loss, gain);
      StrengthIsShare(loss, more);
      Smaller(Strength(loss, gain), Strength(loss, more), loss + gain, loss + more);
    }
  }

  /** Of two equal products the one with the larger factor has the smaller other one. */
  lemma Smaller(x: real, y: real, s: real, t: real)
    requires 0.0 < s < t && x * s == y * t && x * s > 0.0
    ensures y < x
  {
    Compare(x, 0.0, s, x * s);
    Compare(t, s, x, x * t);
    Compare(y, x, t, x * s);
  }

  lemma {:induction false} SumZero(m: seq<real>)
    requires Nonnegative(m)
    ensures Sum(m) == 0.0 <==> forall i | 0 <= i < |m| :: m[i] == 0.0
  {
    if m == [] {
    } else {
      var n := |m| - 1;
      SumNonnegative(m[..n]);
      SumZero(m[..n]);
      assert (forall i | 0 <= i < n :: m[i] == 0.0) <==> forall i | 0 <= i < n :: m[..n][i] == 0.0;
    }
  }

  lemma OverZero(x: real, y: real)
    requires y > 0.0
    ensures Over(x, y) == 0.0 <==> x == 0.0
    ensures x >= 0.0 ==> Over(x, y) >= 0.0
  {
    OverTimes(x, y);
  }

  /** From two on, an average of moves is zero only when none of them moved. */
  lemma {:induction false} WilderZero(m: seq<real>, p: nat)
    requires 2 <= p <= |m| && Nonnegative(m)
    ensures Wilder(m, p) == 0.0 <==> forall i | 0 <= i < |m| :: m[i] == 0.0
  {
    hide Over, Times, Sum;
    if |m| == p {
      SumZero(m);
      OverZero(Sum(m), p as real);
    } else {
      var n := |m| - 1;
      WilderZero(m[..n], p);
      var a := Wilder(m[..n], p);
      WilderNonnegative(m[..n], p);
      OverZero(Times(a, p as real - 1.0) + m[n], p as real);
      TimesPositive(p as real - 1.0, a);
      Commute(a, p as real - 1.0);
      assert (forall i | 0 <= i < n :: m[i] == 0.0) <==> forall i | 0 <= i < n :: m[..n][i] == 0.0;
    }
  }

  /** The index is 100 when no price fell, and 0 when some fell and none rose. */
  lemma RsiEnds(s: seq<real>, p: nat)
    requires 2 <= p < |s|
    ensures Rsi(s, p) == 100.0 <==> forall i | 0 <= i < |s| - 1 :: s[i] <= s[i + 1]
    ensures Rsi(s, p) == 0.0
            <==> (forall i | 0 <= i < |s| - 1 :: s[i] >= s[i + 1]) && exists i :: 0 <= i < |s| - 1 && s[i] > s[i + 1]
  {
    hide Wilder, Strength;
    var gains, losses := Moves(s, true), Moves(s, false);
    AveragesNonnegative(s, p);
    StrengthExactly(Wilder(gains, p), Wilder(losses, p));
    WilderZero(gains, p);
    WilderZero(losses, p);
    assert forall i | 0 <= i < |s| - 1 ::
        (gains[i] == 0.0 <==> s[i] >= s[i + 1]) && (losses[i] == 0.0 <==> s[i] <= s[i + 1]);
  }

  // ------------------------------------------------------------------------- votes

  datatype Indicator = Trend | Momentum | RelativeStrength | Deviation

  /** The average losses and gains of the last closes, as the index takes them. */
  function Gain(s: seq<real>): real
    requires |s| >= 15
  {
    Wilder(Moves(s, true), 14)
  }

  function Loss(s: seq<real>): real
    requires |s| >= 15
  {
    Wilder(Moves(s, false), 14)
  }

  /** How far the last close is from the mean of the last twenty. */
  function Distance(s: seq<real>): real
    requires |s| >= 20
  {
    s[|s| - 1] - Sum(s[|s| - 20..]) / 20.0
  }

  function Spread20(s: seq<real>): real
    requires |s| >= 20
  {
    Sum(Squares(Deviations(s[|s| - 20..], Sum(s[|s| - 20..]) / 20.0))) / 20.0
  }

  function Cast(trend: bool, momentum: bool, strength: bool, deviation: bool): set<Indicator> {
    (if trend then {Trend} else {}) + (if momentum then {Momentum} else {})
    + (if strength then {RelativeStrength} else {}) + (if deviation then {Deviation} else {})
  }

  function One(vote: bool): int { if vote then 1 else 0 }

  lemma CastSize(a: bool, b: bool, c: bool, d: bool)
    ensures |Cast(a, b, c, d)| == One(a) + One(b) + One(c) + One(d)
  {
    var x: set<Indicator> := if a then {Trend} else {};
    var y := x + if b then {Momentum} else {};
    var z := y + if c then {RelativeStrength} else {};
    assert |x| == One(a);
    assert |y| == |x| + One(b);
    assert |z| == |y| + One(c);
    assert |Cast(a, b, c, d)| == |z| + One(d);
  }

  /** The last ten closes are on average above the last thirty. */
  predicate UpTrend(s: seq<real>)
    requires |s| >= 35
  {
    3.0 * Sum(s[|s| - 10..]) > Sum(s[|s| - 30..])
  }

  predicate FewGains(s: seq<real>)
    requires |s| >= 15
  {
    7.0 * Gain(s) < 3.0 * Loss(s)
  }

  predicate FewLosses(s: seq<real>)
    requires |s| >= 15
  {
    Loss(s) == 0.0 || 3.0 * Gain(s) > 7.0 * Loss(s)
  }

  /** The last close is more than two deviations from the mean. */
  predicate Far(s: seq<real>)
    requires |s| >= 20
  {
    Distance(s) * Distance(s) > 4.0 * Spread20(s)
  }

  /** The votes cast for a rise: an upward trend and momentum, few gains, a close far below the mean. */
  function For(s: seq<real>): set<Indicator>
    requires |s| >= 35
  {
    Cast(UpTrend(s), Histogram(s, 12, 26, 9) > 0.0, FewGains(s), Far(s) && Distance(s) < 0.0)
  }

  /** The votes cast against: no upward trend or momentum, few losses, a close far above the mean. */
  function Against(s: seq<real>): set<Indicator>
    requires |s| >= 35
  {
    Cast(!UpTrend(s), Histogram(s, 12, 26, 9) <= 0.0, FewLosses(s), Far(s) && Distance(s) > 0.0)
  }

  lemma TrendVote(s: seq<real>)
    requires |s| >= 35
    ensures Sma(s, 10) > Sma(s, 30) <==> UpTrend(s)
  {
  }

  lemma StrengthVote(s: seq<real>)
    requires |s| >= 35
    ensures Rsi(s, 14) < 30.0 <==> FewGains(s)
    ensures Rsi(s, 14) > 70.0 <==> FewLosses(s)
  {
    AveragesNonnegative(s, 14);
    hide Wilder, Strength;
    StrengthExactly(Gain(s), Loss(s));
  }

  /** More than two deviations away is more than four variances away, squared. */
  lemma DeviationVote(root: Root, s: seq<real>)
    requires IsRoot(root) && |s| >= 35
    ensures var z := Standardised(root, s[|s| - 20..]);
      && (z < -2.0 <==> Far(s) && Distance(s) < 0.0)
      && (z > 2.0 <==> Far(s) && Distance(s) > 0.0)
  {
    var t := s[|s| - 20..];
    var x, sd := t[|t| - 1] - Mean(t), root(Variance(t));
    assert x == Distance(s) && Variance(t) == Spread20(s);
    assert Square(sd) == Variance(t) && sd >= 0.0;
    hide Sum, Mean, Variance, Deviations, Squares, Distance, Spread20, Square;
    SquareIs(sd);
    if sd == 0.0 {
      FlatWindow(t);
    } else {
      Quotient(x, sd);
    }
  }

  lemma SquareIs(x: real)
    ensures Square(x) == x * x
  {
  }

  lemma FlatWindow(t: seq<real>)
    requires t != [] && Variance(t) == 0.0
    ensures t[|t| - 1] == Mean(t)
  {
    hide Sum, Times, Over, Square;
    var q := Squares(Deviations(t, Mean(t)));
    OverZero(Sum(q), |t| as real);
    SumZero(q);
    assert Square(t[|t| - 1] - Mean(t)) == q[|t| - 1] == 0.0;
    if t[|t| - 1] != Mean(t) { SquareNonzero(t[|t| - 1] - Mean(t)); }
  }

  lemma Quotient(x: real, sd: real)
    requires sd > 0.0
    ensures Over(x, sd) < -2.0 <==> x < 0.0 && x * x > 4.0 * (sd * sd)
    ensures Over(x, sd) > 2.0 <==> x > 0.0 && x * x > 4.0 * (sd * sd)
  {
    var z := Over(x, sd);
    assert z * sd == x;
    Compare(z, -2.0, sd, x);
    Compare(z, 2.0, sd, x);
    BySquares(x, 2.0 * sd);
    BySquares(-x, 2.0 * sd);
  }

  lemma BySquares(x: real, y: real)
    requires y > 0.0
    ensures x > y <==> x > 0.0 && x * x > y * y
  {
    if x > 0.0 {
      Compare(x, y, x, x * x);
      Compare(x, y, y, x * y);
    }
  }

  /** The score is the number of votes for a rise less the number against. */
  lemma VotesExactly(root: Root, s: seq<real>)
    requires IsRoot(root) && |s| >= 35
    ensures VoteScore(root, s) == |For(s)| - |Against(s)|
    ensures VerdictOf(VoteScore(root, s)) == Bullish <==> |For(s)| >= |Against(s)| + 2
    ensures VerdictOf(VoteScore(root, s)) == Bearish <==> |Against(s)| >= |For(s)| + 2
  {
    TrendVote(s);
    StrengthVote(s);
    DeviationVote(root, s);
    hide Sma, UpTrend, Histogram, Rsi, Standardised, FewGains, FewLosses, Distance, Far, Cast;
    CastSize(UpTrend(s), Histogram(s, 12, 26, 9) > 0.0, FewGains(s), Far(s) && Distance(s) < 0.0);
    CastSize(!UpTrend(s), Histogram(s, 12, 26, 9) <= 0.0, FewLosses(s), Far(s) && Distance(s) > 0.0);
  }

  // --------------------------------------------------------------- rising and falling

  predicate Rising(s: seq<real>) { forall i | 0 <= i < |s| - 1 :: s[i] < s[i + 1] }

  predicate Falling(s: seq<real>) { forall i | 0 <= i < |s| - 1 :: s[i] > s[i + 1] }

  lemma {:induction false} RisingApart(s: seq<real>, i: nat, j: nat)
    requires i <= j < |s|
    ensures Rising(s) ==> s[i] <= s[j]
    ensures Falling(s) ==> s[i] >= s[j]
    decreases j
  {
    if i < j { RisingApart(s, i, j - 1); }
  }

  lemma {:induction false} SumConcat(a: seq<real>, b: seq<real>)
    ensures Sum(a + b) == Sum(a) + Sum(b)
  {
    if b == [] {
      assert a + b == a;
    } else {
      var n := |b| - 1;
      assert (a + b)[..|a + b| - 1] == a + b[..n];
      SumConcat(a, b[..n]);
    }
  }

  lemma SumsApart(a: seq<real>, b: seq<real>, u: real, v: real)
    requires |a| == 20 && |b| == 10
    ensures u < v && (forall i | 0 <= i < 20 :: a[i] <= u) && (forall i | 0 <= i < 10 :: b[i] >= v)
            ==> 2.0 * Sum(b) > Sum(a)
    ensures u > v && (forall i | 0 <= i < 20 :: a[i] >= u) && (forall i | 0 <= i < 10 :: b[i] <= v)
            ==> 2.0 * Sum(b) < Sum(a)
  {
    hide Sum, Times;
    BoundedSum(a, u);
    BoundedSum(b, v);
  }

  lemma {:induction false} BoundedSum(a: seq<real>, u: real)
    ensures (forall i | 0 <= i < |a| :: a[i] <= u) ==> Sum(a) <= |a| as real * u
    ensures (forall i | 0 <= i < |a| :: a[i] >= u) ==> Sum(a) >= |a| as real * u
  {
    if a == [] {
    } else {
      var n := |a| - 1;
      BoundedSum(a[..n], u);
      assert |a| as real * u == n as real * u + u;
    }
  }

  lemma TrendOf(s: seq<real>)
    requires |s| >= 35
    ensures Rising(s) ==> UpTrend(s)
    ensures Falling(s) ==> !UpTrend(s)
  {
    hide Sum;
    var n := |s|;
    var a, b := s[n - 30..n - 10], s[n - 10..];
    assert s[n - 30..] == a + b;
    SumConcat(a, b);
    forall i | 0 <= i < 20
      ensures (Rising(s) ==> a[i] <= s[n - 11]) && (Falling(s) ==> a[i] >= s[n - 11])
    {
      RisingApart(s, n - 30 + i, n - 11);
    }
    forall i | 0 <= i < 10
      ensures (Rising(s) ==> b[i] >= s[n - 10]) && (Falling(s) ==> b[i] <= s[n - 10])
    {
      RisingApart(s, n - 10, n - 10 + i);
    }
    assert (Rising(s) ==> s[n - 11] < s[n - 10]) && (Falling(s) ==> s[n - 11] > s[n - 10]);
    SumsApart(a, b, s[n - 11], s[n - 10]);
  }

  lemma DistanceOf(s: seq<real>)
    requires |s| >= 35
    ensures Rising(s) ==> Distance(s) >= 0.0
    ensures Falling(s) ==> Distance(s) <= 0.0
  {
    hide Sum;
    var t, n := s[|s| - 20..], |s|;
    forall i | 0 <= i < 20
      ensures (Rising(s) ==> t[i] <= s[n - 1]) && (Falling(s) ==> t[i] >= s[n - 1])
    {
      RisingApart(s, n - 20 + i, n - 1);
    }
    BoundedSum(t, s[n - 1]);
  }

  lemma MovesOf(s: seq<real>)
    requires |s| >= 35
    ensures Rising(s) ==> FewLosses(s) && !FewGains(s)
    ensures Falling(s) ==> FewGains(s) && !FewLosses(s)
  {
    hide Wilder;
    var gains, losses := Moves(s, true), Moves(s, false);
    AveragesNonnegative(s, 14);
    WilderZero(gains, 14);
    WilderZero(losses, 14);
    assert losses[0] == Positive(s[0] - s[1]);
    assert forall i | 0 <= i < |s| - 1 :: s[i] < s[i + 1] ==> losses[i] == 0.0;
    assert forall i | 0 <= i < |s| - 1 :: s[i] > s[i + 1] ==> gains[i] == 0.0;
  }

  lemma RunVotes(s: seq<real>)
    requires |s| >= 35
    ensures Rising(s) ==> For(s) <= {Trend, Momentum} && Trend in For(s) && RelativeStrength in Against(s)
    ensures Falling(s) ==> Against(s) <= {Trend, Momentum} && Trend in Against(s) && RelativeStrength in For(s)
  {
    TrendOf(s);
    DistanceOf(s);
    MovesOf(s);
    hide UpTrend, Histogram, FewGains, FewLosses, Distance, Far, Rising, Falling;
  }

  /**
   Closes that only rise have the trend for them and the strength index against them, so that they never make a
   bullish verdict; closes that only fall never make a bearish one.
   */
  lemma StraightRunsDoNotCarry(root: Root, s: seq<real>)
    requires IsRoot(root) && |s| >= 35
    ensures Rising(s) ==>
      && For(s) <= {Trend, Momentum} && Trend in For(s) && RelativeStrength in Against(s)
      && VerdictOf(VoteScore(root, s)) != Bullish
    ensures Falling(s) ==>
      && Against(s) <= {Trend, Momentum} && Trend in Against(s) && RelativeStrength in For(s)
      && VerdictOf(VoteScore(root, s)) != Bearish
  {
    VotesExactly(root, s);
    RunVotes(s);
    hide *;
    if Rising(s) { Outvoted(For(s), Against(s)); }
    if Falling(s) { Outvoted(Against(s), For(s)); }
  }

  lemma Outvoted(winning: set<Indicator>, losing: set<Indicator>)
    requires winning <= {Trend, Momentum} && RelativeStrength in losing
    ensures |winning| < |losing| + 2
  {
    assert winning + ({Trend, Momentum} - winning) == {Trend, Momentum};
    assert losing != {};
  }

  // ------------------------------------------------------------------- a steady rise

  predicate Steady(s: seq<real>, d: real) { forall i | 0 <= i < |s| - 1 :: s[i + 1] == s[i] + d }

  /** Half a window of steps. */
  function Lag(d: real, w: real): real { d * (w - 1.0) / 2.0 }

  lemma {:induction false} SteadySum(s: seq<real>, d: real)
    requires s != [] && Steady(s, d)
    ensures var n := |s| as real; Sum(s) == n * (s[|s| - 1] - Lag(d, n))
  {
    if |s| == 1 {
      assert s[..0] == [] && Sum(s) == Sum(s[..0]) + s[0];
    } else {
      hide Lag;
      var m := |s| - 1;
      SteadySum(s[..m], d);
      SteadyStep(m as real, s[m], d);
      assert s[m - 1] == s[m] - d;
    }
  }

  lemma SteadyStep(m: real, last: real, d: real)
    ensures m * (last - d - Lag(d, m)) + last == (m + 1.0) * (last - Lag(d, m + 1.0))
  {
    var p := d * m;
    assert m * (last - d - d * (m - 1.0) / 2.0) == m * last - p / 2.0 - m * p / 2.0;
    assert (m + 1.0) * (last - p / 2.0) == m * last - m * p / 2.0 + last - p / 2.0;
  }

  lemma SteadyMean(s: seq<real>, d: real)
    requires s != [] && Steady(s, d)
    ensures Mean(s) == s[|s| - 1] - Lag(d, |s| as real)
  {
    hide Lag, Sum;
    SteadySum(s, d);
    Commute(|s| as real, s[|s| - 1] - Lag(d, |s| as real));
    OverUnique(Sum(s), |s| as real, s[|s| - 1] - Lag(d, |s| as real));
  }

  /** An average lags behind a steady series by half its window. */
  lemma {:induction false} EmaSteady(s: seq<real>, w: nat, d: real)
    requires 1 <= w <= |s| && Steady(s, d)
    ensures Ema(s, w) == s[|s| - 1] - Lag(d, w as real)
  {
    hide Lag, Mean, Blend;
    if |s| == w {
      SteadyMean(s, d);
    } else {
      var n := |s| - 1;
      EmaSteady(s[..n], w, d);
      assert s[n - 1] == s[n] - d;
      LagKept(s[n], d, w as real);
    }
  }

  lemma LagKept(v: real, d: real, w: real)
    requires w >= 1.0
    ensures Blend(v, v - d - Lag(d, w), Over(2.0, w + 1.0)) == v - Lag(d, w)
  {
    var k := 2.0 / (w + 1.0);
    assert k * (w + 1.0) == 2.0;
    var behind := d + d * (w - 1.0) / 2.0;
    assert behind == (w + 1.0) * (d / 2.0);
    assert k * behind == (k * (w + 1.0)) * (d / 2.0);
    assert v * k + (v - behind) * (1.0 - k) == v - behind + k * behind;
  }

  lemma SteadyFront(s: seq<real>, d: real, n: nat)
    requires Steady(s, d) && n <= |s|
    ensures Steady(s[..n], d) && Steady(s[n..], d)
  {
  }

  /** On a steady series the fast average keeps its distance from the slow one, and there is no histogram. */
  lemma HistogramSteady(s: seq<real>, d: real)
    requires |s| >= 35 && Steady(s, d)
    ensures Histogram(s, 12, 26, 9) == 0.0
  {
    hide Ema, Steady;
    var line := Spreads(s, 12, 26);
    forall i | 0 <= i < |line| ensures line[i] == 7.0 * d {
      var t := s[..26 + i];
      SteadyFront(s, d, 26 + i);
      EmaSteady(t, 12, d);
      EmaSteady(t, 26, d);
    }
    EmaWithin(7.0 * d, line, 9, 7.0 * d);
  }

  /** The sums of the first numbers and of their squares. */
  function Numbers(n: nat): int { if n == 0 then 0 else Numbers(n - 1) + n - 1 }

  function SquareNumbers(n: nat): int { if n == 0 then 0 else SquareNumbers(n - 1) + (n - 1) * (n - 1) }

  lemma FirstTwenty()
    ensures Numbers(20) == 190 && SquareNumbers(20) == 2470
  {
    assert Numbers(4) == 6 && SquareNumbers(4) == 14;
    assert Numbers(8) == 28 && SquareNumbers(8) == 140;
    assert Numbers(12) == 66 && SquareNumbers(12) == 506;
    assert Numbers(16) == 120 && SquareNumbers(16) == 1240;
  }

  /** The sum of the squares of `x`, `x + d`, `x + 2d` and so on, with `a`, `b`, `c` for the products of `x` and `d`. */
  function SquareSeries(n: nat, a: real, b: real, c: real): real {
    Times(n as real, a) + Times(2.0 * Numbers(n) as real, b) + Times(SquareNumbers(n) as real, c)
  }

  function SquareTerm(n: nat, a: real, b: real, c: real): real {
    a + Times(2.0 * n as real, b) + Times((n * n) as real, c)
  }

  lemma SquareSeriesStep(n: nat, a: real, b: real, c: real)
    ensures SquareSeries(n, a, b, c) + SquareTerm(n, a, b, c) == SquareSeries(n + 1, a, b, c)
  {
    hide Times;
    Distribute(a, n as real, 1.0);
    Commute(1.0, a);
    TimesOne(a);
    Distribute(b, 2.0 * Numbers(n) as real, 2.0 * n as real);
    Distribute(c, SquareNumbers(n) as real, (n * n) as real);
  }

  function Term(x: real, d: real, i: nat): real { x + Times(i as real, d) }

  lemma SquareOfTerm(x: real, d: real, n: nat)
    ensures Square(Term(x, d, n)) == SquareTerm(n, Times(x, x), Times(x, d), Times(d, d))
  {
    var m := n as real;
    assert (n * n) as real == m * m;
    assert (m * d) * (m * d) == (m * m) * (d * d);
    assert x * (m * d) == m * (x * d);
  }

  lemma {:induction false} SteadySquares(t: seq<real>, d: real, x: real)
    requires forall i: nat | i < |t| :: t[i] == Term(x, d, i)
    ensures Sum(Squares(t)) == SquareSeries(|t|, Times(x, x), Times(x, d), Times(d, d))
  {
    var a, b, c := Times(x, x), Times(x, d), Times(d, d);
    if t == [] {
    } else {
      hide Square, Times, SquareSeries, SquareTerm, Term;
      var n := |t| - 1;
      assert Squares(t)[..n] == Squares(t[..n]);
      SteadySquares(t[..n], d, x);
      SquareOfTerm(x, d, n);
      SquareSeriesStep(n, a, b, c);
    }
  }

  lemma {:induction false} SteadyAt(s: seq<real>, d: real, i: nat)
    requires Steady(s, d) && i < |s|
    ensures s[i] == s[0] + i as real * d
  {
    if i > 0 {
      SteadyAt(s, d, i - 1);
      assert s[i - 1 + 1] == s[i - 1] + d;
    }
  }

  lemma SteadyDistance(s: seq<real>, d: real)
    requires |s| >= 35 && Steady(s, d)
    ensures Distance(s) == 9.5 * d
    ensures Spread20(s) == 33.25 * (d * d)
  {
    var t := s[|s| - 20..];
    SteadyFront(s, d, |s| - 20);
    SteadyMean(t, d);
    assert Mean(t) == Sum(t) / 20.0;
    var q := Deviations(t, Mean(t));
    assert t[19] - Mean(t) == 9.5 * d;
    hide Sum, Mean, Steady;
    forall i: nat | i < |q| ensures q[i] == Term(-9.5 * d, d, i) {
      SteadyAt(t, d, i);
      SteadyAt(t, d, 19);
    }
    SteadySquares(q, d, -9.5 * d);
    FirstTwenty();
  }

  lemma SteadyIsNear(s: seq<real>, d: real)
    requires |s| >= 35 && Steady(s, d)
    ensures !Far(s)
  {
    SteadyDistance(s, d);
    hide Distance, Spread20, Steady;
    assert d * d >= 0.0;
    assert Distance(s) * Distance(s) == 90.25 * (d * d);
  }

  lemma SteadyVotes(s: seq<real>, d: real)
    requires |s| >= 35 && Steady(s, d) && d > 0.0
    ensures For(s) == {Trend} && Against(s) == {Momentum, RelativeStrength}
  {
    HistogramSteady(s, d);
    SteadyIsNear(s, d);
    assert Rising(s);
    TrendOf(s);
    MovesOf(s);
    hide UpTrend, Histogram, FewGains, FewLosses, Distance, Far, Rising, Steady;
  }

  /** A steady rise is scored -1: it has the trend for it, and no momentum. */
  lemma SteadyRise(root: Root, s: seq<real>, d: real)
    requires IsRoot(root) && |s| >= 35 && Steady(s, d) && d > 0.0
    ensures For(s) == {Trend} && Against(s) == {Momentum, RelativeStrength}
    ensures VoteScore(root, s) == -1
  {
    hide *;
    VotesExactly(root, s);
    SteadyVotes(s, d);
  }
}
