/**
 The market indicators over exact reals: what the loops compute, the bounds their results keep, and
 that none of them changes, or all of them scale, when every price is multiplied by one factor.
 Products and quotients have names so that the proofs about series need not look inside them.
 */
module Indicators {
  import opened Prelude

  // ------------------------------------------------------------------- arithmetic

  function Times(a: real, b: real): real { a * b }

  function Over(a: real, b: real): real
    requires b != 0.0
  {
    a / b
  }

  lemma Product(a: real, b: real)
    requires a >= 0.0 && b >= 0.0
    ensures Times(a, b) >= 0.0
  {
  }

  lemma TimesZero(c: real)
    ensures Times(c, 0.0) == 0.0
  {
  }

  lemma Distribute(c: real, x: real, y: real)
    ensures Times(c, x + y) == Times(c, x) + Times(c, y)
    ensures Times(c, x - y) == Times(c, x) - Times(c, y)
    ensures Times(x + y, c) == Times(x, c) + Times(y, c)
  {
  }

  lemma OverTimes(x: real, y: real)
    requires y != 0.0
    ensures Times(Over(x, y), y) == x
  {
  }

  lemma OverUnique(x: real, y: real, q: real)
    requires y != 0.0 && Times(q, y) == x
    ensures q == Over(x, y)
  {
  }

  lemma TimesOver(c: real, x: real, y: real)
    requires y != 0.0
    ensures Over(Times(c, x), y) == Times(c, Over(x, y))
  {
  }

  lemma TimesPositive(c: real, y: real)
    requires c > 0.0
    ensures y > 0.0 ==> Times(c, y) > 0.0
    ensures y < 0.0 ==> Times(c, y) < 0.0
    ensures y == 0.0 ==> Times(c, y) == 0.0
  {
  }

  lemma Commute(a: real, b: real)
    ensures Times(a, b) == Times(b, a)
  {
  }

  lemma CommonFactor(c: real, x: real, y: real)
    requires c > 0.0 && y > 0.0
    ensures Times(c, y) > 0.0 && Over(Times(c, x), Times(c, y)) == Over(x, y)
  {
  }

  lemma OverWithin(x: real, y: real, lo: real, hi: real)
    requires y > 0.0 && Times(lo, y) <= x <= Times(hi, y)
    ensures lo <= Over(x, y) <= hi
  {
  }

  // -------------------------------------------------------------- sums and means

  function Sum(s: seq<real>): real {
    if s == [] then 0.0 else Sum(s[..|s| - 1]) + s[|s| - 1]
  }

  function Mean(s: seq<real>): real
    requires s != []
  {
    Over(Sum(s), |s| as real)
  }

  /** Every price multiplied by `c`. */
  function Scaled(c: real, s: seq<real>): (r: seq<real>)
    ensures |r| == |s| && forall i | 0 <= i < |s| :: r[i] == Times(c, s[i])
  {
    seq(|s|, i requires 0 <= i < |s| => Times(c, s[i]))
  }

  predicate Within(lo: real, s: seq<real>, hi: real) {
    forall i | 0 <= i < |s| :: lo <= s[i] <= hi
  }

  lemma ScaledFront(c: real, s: seq<real>, n: nat)
    requires n <= |s|
    ensures Scaled(c, s)[..n] == Scaled(c, s[..n])
  {
  }

  lemma {:induction false} SumScaled(c: real, s: seq<real>)
    ensures Sum(Scaled(c, s)) == Times(c, Sum(s))
  {
    hide Times;
    if s == [] {
      TimesZero(c);
    } else {
      var n := |s| - 1;
      ScaledFront(c, s, n);
      SumScaled(c, s[..n]);
      Distribute(c, Sum(s[..n]), s[n]);
    }
  }

  lemma MeanScaled(c: real, s: seq<real>)
    requires s != []
    ensures Mean(Scaled(c, s)) == Times(c, Mean(s))
  {
    hide Times, Over, Sum;
    SumScaled(c, s);
    TimesOver(c, Sum(s), |s| as real);
  }

  lemma {:induction false} SumWithin(lo: real, s: seq<real>, hi: real)
    requires Within(lo, s, hi)
    ensures Times(lo, |s| as real) <= Sum(s) <= Times(hi, |s| as real)
  {
    hide Times;
    if s == [] {
      TimesZero(lo);
      TimesZero(hi);
    } else {
      var n := |s| - 1;
      SumWithin(lo, s[..n], hi);
      Distribute(lo, n as real, 1.0);
      Distribute(hi, n as real, 1.0);
      TimesOne(lo);
      TimesOne(hi);
      assert |s| as real == n as real + 1.0;
    }
  }

  lemma TimesOne(c: real)
    ensures Times(c, 1.0) == c
  {
  }

  lemma MeanWithin(lo: real, s: seq<real>, hi: real)
    requires s != [] && Within(lo, s, hi)
    ensures lo <= Mean(s) <= hi
  {
    hide Times, Over, Sum;
    SumWithin(lo, s, hi);
    OverWithin(Sum(s), |s| as real, lo, hi);
  }

  method Total(s: seq<real>) returns (t: real)
    ensures t == Sum(s)
  {
    t := 0.0;
    for i := 0 to |s|
      invariant t == Sum(s[..i])
    {
      assert s[..i + 1][..i] == s[..i];
      t := t + s[i];
    }
    assert s[..|s|] == s;
  }

  // --------------------------------------------------------------- moving averages

  /** The share of a new value in an exponential average. */
  function Share(w: nat): real
    requires w >= 1
  {
    Over(2.0, w as real + 1.0)
  }

  lemma ShareBounds(w: nat)
    requires w >= 1
    ensures 0.0 < Share(w) <= 1.0
  {
  }

  function Blend(v: real, previous: real, k: real): real {
    Times(v, k) + Times(previous, 1.0 - k)
  }

  /** The exponential average of a series after its last value, started from a plain mean. */
  function Ema(s: seq<real>, w: nat): real
    requires 1 <= w <= |s|
  {
    if |s| == w then Mean(s) else Blend(s[|s| - 1], Ema(s[..|s| - 1], w), Share(w))
  }

  method EmaSeries(s: seq<real>, w: nat) returns (out: seq<real>)
    requires 1 <= w <= |s|
    ensures |out| == |s| - w + 1
    ensures forall i | 0 <= i < |out| :: out[i] == Ema(s[..w + i], w)
  {
    hide Times, Over;
    var k := Over(2.0, w as real + 1.0);
    var first := Total(s[..w]);
    out := [Over(first, w as real)];
    for i := w to |s|
      invariant |out| == i - w + 1
      invariant forall j | 0 <= j < |out| :: out[j] == Ema(s[..w + j], w)
    {
      assert s[..i + 1][..i] == s[..i];
      assert out[|out| - 1] == Ema(s[..i], w);
      out := out + [Times(s[i], k) + Times(out[|out| - 1], 1.0 - k)];
    }
  }

  lemma BlendScaled(c: real, v: real, p: real, k: real)
    ensures Blend(Times(c, v), Times(c, p), k) == Times(c, Blend(v, p, k))
  {
  }

  lemma BlendWithin(lo: real, v: real, p: real, k: real, hi: real)
    requires lo <= v <= hi && lo <= p <= hi && 0.0 < k <= 1.0
    ensures lo <= Blend(v, p, k) <= hi
  {
    Product(v - lo, k);
    Product(p - lo, 1.0 - k);
    Product(hi - v, k);
    Product(hi - p, 1.0 - k);
    assert Blend(v, p, k) - lo == (v - lo) * k + (p - lo) * (1.0 - k);
    assert hi - Blend(v, p, k) == (hi - v) * k + (hi - p) * (1.0 - k);
  }

  lemma {:induction false} EmaScaled(c: real, s: seq<real>, w: nat)
    requires 1 <= w <= |s|
    ensures Ema(Scaled(c, s), w) == Times(c, Ema(s, w))
  {
    hide Times, Blend, Share, Mean;
    if |s| == w {
      MeanScaled(c, s);
    } else {
      var n := |s| - 1;
      EmaScaled(c, s[..n], w);
      ScaledFront(c, s, n);
      BlendScaled(c, s[n], Ema(s[..n], w), Share(w));
    }
  }

  /** An exponential average stays between the bounds of its inputs. */
  lemma {:induction false} EmaWithin(lo: real, s: seq<real>, w: nat, hi: real)
    requires 1 <= w <= |s| && Within(lo, s, hi)
    ensures lo <= Ema(s, w) <= hi
  {
    hide Times, Blend, Share, Mean;
    if |s| == w {
      MeanWithin(lo, s, hi);
    } else {
      var n := |s| - 1;
      EmaWithin(lo, s[..n], w, hi);
      ShareBounds(w);
      BlendWithin(lo, s[n], Ema(s[..n], w), Share(w), hi);
    }
  }

  // ------------------------------------------------------------------------- MACD

  /** The values before the first fast average that is paired: the front of the longer list is cut off. */
  function Lead(fast: nat, slow: nat): nat { if fast <= slow then slow else fast }

  /** The difference of the averages paired at position `i`. */
  function Spread(s: seq<real>, fast: nat, slow: nat, i: nat): real
    requires 1 <= fast && 1 <= slow && Lead(fast, slow) + i <= |s|
  {
    Ema(s[..Lead(fast, slow) + i], fast) - Ema(s[..slow + i], slow)
  }

  /** With the fast window no longer than the slow one both averages are taken at the same moment. */
  function Spreads(s: seq<real>, fast: nat, slow: nat): (line: seq<real>)
    requires 1 <= fast && 1 <= slow && Lead(fast, slow) <= |s|
    ensures |line| == |s| - Lead(fast, slow) + 1
    ensures forall i | 0 <= i < |line| :: line[i] == Spread(s, fast, slow, i)
    ensures fast <= slow ==> forall i | 0 <= i < |line| ::
      line[i] == Ema(s[..slow + i], fast) - Ema(s[..slow + i], slow)
  {
    seq(|s| - Lead(fast, slow) + 1, i requires 0 <= i < |s| - Lead(fast, slow) + 1 => Spread(s, fast, slow, i))
  }

  datatype Macd = Macd(line: real, signal: real, histogram: real)

  datatype MacdResult = ShortSeries | ShortSignal | Paired(macd: Macd)

  /**
   The call is refused for a short series, and by the second guard exactly when the pairs are too few for the
   signal, for which the fast window must exceed the slow one.
   */
  method ComputeMacd(s: seq<real>, fast: nat, slow: nat, signal: nat) returns (r: MacdResult)
    requires 1 <= fast && 1 <= slow && 1 <= signal
    ensures r.ShortSeries? <==> |s| < slow + signal || |s| < fast
    ensures r.ShortSignal? <==> slow + signal <= |s| && fast <= |s| < fast + signal - 1
    ensures r.ShortSignal? ==> fast > slow + 1
    ensures r.Paired? ==>
      && var line := Spreads(s, fast, slow);
      && |line| >= signal
      && r.macd == Macd(line[|line| - 1], Ema(line, signal), line[|line| - 1] - Ema(line, signal))
  {
    hide Ema;
    if |s| < slow + signal { return ShortSeries; }
    if |s| < fast { return ShortSeries; }
    var ef := EmaSeries(s, fast);
    var es := EmaSeries(s, slow);
    var tail := if |es| <= |ef| then ef[|ef| - |es|..] else ef;
    var line: seq<real> := [];
    var pairs := if |tail| <= |es| then |tail| else |es|;
    for i := 0 to pairs
      invariant |line| == i && forall j | 0 <= j < i :: line[j] == Spread(s, fast, slow, j)
    {
      assert tail[i] == Ema(s[..Lead(fast, slow) + i], fast) by {
        if |es| <= |ef| { assert s[..fast + (|ef| - |es| + i)] == s[..slow + i]; }
      }
      line := line + [tail[i] - es[i]];
    }
    assert line == Spreads(s, fast, slow);
    if |line| < signal { return ShortSignal; }
    var sig := EmaSeries(line, signal);
    assert line[..|line|] == line;
    var last, trend := line[|line| - 1], sig[|sig| - 1];
    r := Paired(Macd(last, trend, last - trend));
  }

  lemma SpreadScaled(c: real, s: seq<real>, fast: nat, slow: nat, i: nat)
    requires 1 <= fast && 1 <= slow && Lead(fast, slow) + i <= |s|
    ensures Spread(Scaled(c, s), fast, slow, i) == Times(c, Spread(s, fast, slow, i))
  {
    hide Ema, Times;
    var m, n := Lead(fast, slow) + i, slow + i;
    ScaledFront(c, s, m);
    ScaledFront(c, s, n);
    EmaScaled(c, s[..m], fast);
    EmaScaled(c, s[..n], slow);
    Distribute(c, Ema(s[..m], fast), Ema(s[..n], slow));
  }

  function Histogram(s: seq<real>, fast: nat, slow: nat, signal: nat): real
    requires 1 <= fast && 1 <= slow && 1 <= signal && Lead(fast, slow) + signal - 1 <= |s|
  {
    var line := Spreads(s, fast, slow);
    line[|line| - 1] - Ema(line, signal)
  }

  lemma HistogramScaled(c: real, s: seq<real>, fast: nat, slow: nat, signal: nat)
    requires 1 <= fast && 1 <= slow && 1 <= signal && Lead(fast, slow) + signal - 1 <= |s|
    ensures Histogram(Scaled(c, s), fast, slow, signal) == Times(c, Histogram(s, fast, slow, signal))
  {
    hide Ema, Spread, Times;
    var line := Spreads(s, fast, slow);
    forall i | 0 <= i < |line| ensures Spreads(Scaled(c, s), fast, slow)[i] == Scaled(c, line)[i] {
      SpreadScaled(c, s, fast, slow, i);
    }
    assert Spreads(Scaled(c, s), fast, slow) == Scaled(c, line);
    EmaScaled(c, line, signal);
    Distribute(c, line[|line| - 1], Ema(line, signal));
  }

  // -------------------------------------------------------------------------- RSI

  function Positive(d: real): real { if d > 0.0 then d else 0.0 }

  /** The gain (`up`) or the loss from one price to the next. */
  function Move(s: seq<real>, i: nat, up: bool): real
    requires i + 1 < |s|
  {
    Positive(if up then s[i + 1] - s[i] else s[i] - s[i + 1])
  }

  function Moves(s: seq<real>, up: bool): (m: seq<real>)
    requires s != []
    ensures |m| == |s| - 1
    ensures forall i | 0 <= i < |m| :: m[i] == Move(s, i, up)
  {
    seq(|s| - 1, i requires 0 <= i < |s| - 1 => Move(s, i, up))
  }

  function Smooth(a: real, v: real, p: nat): real
    requires p >= 1
  {
    Over(Times(a, p as real - 1.0) + v, p as real)
  }

  /** Wilder's running average. */
  function Wilder(m: seq<real>, p: nat): real
    requires 1 <= p <= |m|
  {
    if |m| == p then Mean(m) else Smooth(Wilder(m[..|m| - 1], p), m[|m| - 1], p)
  }

  function Strength(gain: real, loss: real): real
    requires gain >= 0.0 && loss >= 0.0
  {
    if loss == 0.0 then 100.0
    else
      RatioNonnegative(gain, loss);
      100.0 - Over(100.0, 1.0 + Over(gain, loss))
  }

  lemma RatioNonnegative(a: real, b: real)
    requires a >= 0.0 && b > 0.0
    ensures Over(a, b) >= 0.0
  {
  }

  predicate Nonnegative(m: seq<real>) {
    forall i | 0 <= i < |m| :: m[i] >= 0.0
  }

  lemma {:induction false} SumNonnegative(m: seq<real>)
    requires Nonnegative(m)
    ensures Sum(m) >= 0.0
  {
    if m != [] { SumNonnegative(m[..|m| - 1]); }
  }

  lemma {:induction false} WilderNonnegative(m: seq<real>, p: nat)
    requires 1 <= p <= |m| && Nonnegative(m)
    ensures Wilder(m, p) >= 0.0
  {
    hide Over, Times;
    if |m| == p {
      SumNonnegative(m);
      RatioNonnegative(Sum(m), p as real);
    } else {
      var n := |m| - 1;
      WilderNonnegative(m[..n], p);
      Product(Wilder(m[..n], p), p as real - 1.0);
      RatioNonnegative(Times(Wilder(m[..n], p), p as real - 1.0) + m[n], p as real);
    }
  }

  function Rsi(s: seq<real>, p: nat): real
    requires 1 <= p < |s|
  {
    var gains, losses := Moves(s, true), Moves(s, false);
    AveragesNonnegative(s, p);
    Strength(Wilder(gains, p), Wilder(losses, p))
  }

  lemma AveragesNonnegative(s: seq<real>, p: nat)
    requires 1 <= p < |s|
    ensures Wilder(Moves(s, true), p) >= 0.0 && Wilder(Moves(s, false), p) >= 0.0
  {
    WilderNonnegative(Moves(s, true), p);
    WilderNonnegative(Moves(s, false), p);
  }

  method GainsAndLosses(s: seq<real>) returns (gains: seq<real>, losses: seq<real>)
    requires s != []
    ensures gains == Moves(s, true) && losses == Moves(s, false)
  {
    gains, losses := [], [];
    for i := 1 to |s|
      invariant |gains| == |losses| == i - 1
      invariant forall j | 0 <= j < i - 1 :: gains[j] == Moves(s, true)[j] && losses[j] == Moves(s, false)[j]
    {
      var d := s[i] - s[i - 1];
      gains := gains + [if d > 0.0 then d else 0.0];
      losses := losses + [if -d > 0.0 then -d else 0.0];
    }
  }

  method ComputeRsi(s: seq<real>, p: nat) returns (r: Option<real>)
    requires 1 <= p
    ensures r == if |s| < p + 1 then None else Some(Rsi(s, p))
  {
    hide Over, Times, Moves, Sum;
    if |s| < p + 1 { return None; }
    var gains, losses := GainsAndLosses(s);
    var gain := Total(gains[..p]);
    var loss := Total(losses[..p]);
    var averageGain, averageLoss := Over(gain, p as real), Over(loss, p as real);
    for i := p to |gains|
      invariant averageGain == Wilder(gains[..i], p) && averageLoss == Wilder(losses[..i], p)
    {
      assert gains[..i + 1][..i] == gains[..i] && losses[..i + 1][..i] == losses[..i];
      averageGain := Over(Times(averageGain, p as real - 1.0) + gains[i], p as real);
      averageLoss := Over(Times(averageLoss, p as real - 1.0) + losses[i], p as real);
    }
    assert gains[..|gains|] == gains && losses[..|gains|] == losses;
    AveragesNonnegative(s, p);
    r := Some(Strength(averageGain, averageLoss));
  }

  lemma StrengthBounded(gain: real, loss: real)
    requires gain >= 0.0 && loss >= 0.0
    ensures 0.0 <= Strength(gain, loss) <= 100.0
  {
  }

  /** The relative strength index lies between 0 and 100. */
  lemma RsiBounded(s: seq<real>, p: nat)
    requires 1 <= p < |s|
    ensures 0.0 <= Rsi(s, p) <= 100.0
  {
    hide Wilder, Strength;
    AveragesNonnegative(s, p);
    StrengthBounded(Wilder(Moves(s, true), p), Wilder(Moves(s, false), p));
  }

  lemma MoveScaled(c: real, s: seq<real>, i: nat, up: bool)
    requires c > 0.0 && i + 1 < |s|
    ensures Move(Scaled(c, s), i, up) == Times(c, Move(s, i, up))
  {
    hide Times;
    var d := if up then s[i + 1] - s[i] else s[i] - s[i + 1];
    Distribute(c, s[i + 1], s[i]);
    Distribute(c, s[i], s[i + 1]);
    TimesPositive(c, d);
    TimesZero(c);
  }

  lemma MovesScaled(c: real, s: seq<real>, up: bool)
    requires c > 0.0 && s != []
    ensures Moves(Scaled(c, s), up) == Scaled(c, Moves(s, up))
  {
    hide Times, Move;
    forall i: nat | i + 1 < |s| ensures Moves(Scaled(c, s), up)[i] == Scaled(c, Moves(s, up))[i] {
      MoveScaled(c, s, i, up);
    }
  }

  lemma SmoothScaled(c: real, a: real, v: real, p: nat)
    requires p >= 1
    ensures Smooth(Times(c, a), Times(c, v), p) == Times(c, Smooth(a, v, p))
  {
  }

  lemma {:induction false} WilderScaled(c: real, m: seq<real>, p: nat)
    requires 1 <= p <= |m|
    ensures Wilder(Scaled(c, m), p) == Times(c, Wilder(m, p))
  {
    hide Smooth, Mean, Times;
    if |m| == p {
      MeanScaled(c, m);
    } else {
      var n := |m| - 1;
      WilderScaled(c, m[..n], p);
      ScaledFront(c, m, n);
      SmoothScaled(c, Wilder(m[..n], p), m[n], p);
    }
  }

  lemma StrengthScaled(c: real, gain: real, loss: real)
    requires c > 0.0 && gain >= 0.0 && loss >= 0.0
    ensures Times(c, gain) >= 0.0 && Times(c, loss) >= 0.0
    ensures Strength(Times(c, gain), Times(c, loss)) == Strength(gain, loss)
  {
  }

  lemma RsiScaled(c: real, s: seq<real>, p: nat)
    requires c > 0.0 && 1 <= p < |s|
    ensures Rsi(Scaled(c, s), p) == Rsi(s, p)
  {
    hide Wilder, Strength, Times;
    MovesScaled(c, s, true);
    MovesScaled(c, s, false);
    WilderScaled(c, Moves(s, true), p);
    WilderScaled(c, Moves(s, false), p);
    AveragesNonnegative(s, p);
    StrengthScaled(c, Wilder(Moves(s, true), p), Wilder(Moves(s, false), p));
  }
}
