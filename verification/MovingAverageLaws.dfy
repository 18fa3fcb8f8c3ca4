/** Laws of the moving averages and of MACD. */
module MovingAverageLaws {
  import opened Prelude
  import opened Rounding
  import opened IndicatorSpec

  function Mirrored(x: Option<real>, level: real): Option<real> {
    if x.Some? then Some(level - x.value) else None
  }

  /** Mirrored at an even number of ticks, the prices have the mirrored average, rounding included. */
  lemma SmaMirrors(xs: seq<real>, ys: seq<real>, period: nat, i: nat, level: real)
    requires 1 <= period && i < |xs| && Mirror(xs, ys, level) && IsEvenTick(level)
    ensures SmaAt(ys, period, i) == Mirrored(SmaAt(xs, period, i), level)
  {
    if i + 1 >= period {
      var window := xs[i + 1 - period..i + 1];
      SeedMirrors(window, ys[i + 1 - period..i + 1], level);
    }
  }

  /** The exponential average of mirrored prices is the mirrored average. */
  lemma {:induction false} EmaMirrors(xs: seq<real>, ys: seq<real>, period: nat, i: nat, level: real)
    requires 1 <= period && period - 1 <= i < |xs| && Mirror(xs, ys, level) && IsEvenTick(level)
    ensures EmaValue(ys, period, i) == level - EmaValue(xs, period, i)
  {
    if i == period - 1 {
      SeedMirrors(xs[..period], ys[..period], level);
    } else {
      EmaMirrors(xs, ys, period, i - 1, level);
      EmaStepMirrors(EmaValue(xs, period, i - 1), xs[i], EmaValue(ys, period, i - 1), ys[i], period, level);
    }
  }

  lemma SeedMirrors(xs: seq<real>, ys: seq<real>, level: real)
    requires xs != [] && Mirror(xs, ys, level) && IsEvenTick(level)
    ensures Round4(Mean(ys)) == level - Round4(Mean(xs))
  {
    MeanMirror(xs, ys, level);
    Round4Reflects(Mean(xs), level);
  }

  lemma EmaStepMirrors(a: real, x: real, b: real, y: real, period: nat, level: real)
    requires IsEvenTick(level) && b == level - a && y == level - x
    ensures EmaStep(b, y, period) == level - EmaStep(a, x, period)
  {
    BlendMirrors(a, x, period, level);
    Round4Reflects(Blend(a, x, period), level);
  }

  lemma BlendMirrors(previous: real, price: real, period: nat, level: real)
    ensures Blend(level - previous, level - price, period) == level - Blend(previous, price, period)
  {
    var k := Alpha(period);
    Complement(level - previous, k);
    Complement(previous, k);
    assert (level - price) * k == level * k - price * k;
    assert (level - previous) * k == level * k - previous * k;
  }

  lemma AlphaRange(period: nat)
    requires 1 <= period
    ensures 0.0 < Alpha(period) <= 1.0
  {
  }

  lemma MeanWithin(xs: seq<real>, lo: real, hi: real)
    requires xs != [] && forall j :: 0 <= j < |xs| ==> lo <= xs[j] <= hi
    ensures lo <= Mean(xs) <= hi
  {
    SumBounds(xs, lo, hi);
    QuotientWithin(Sum(xs), |xs| as real, lo, hi);
  }

  lemma QuotientWithin(s: real, m: real, lo: real, hi: real)
    requires m > 0.0 && lo * m <= s <= hi * m
    ensures lo <= s / m <= hi
  {
    DivBound(s, m, hi);
    var q := s / m;
    assert q * m == s;
    if q < lo {
      MulStrict(q, lo, m);
    }
  }

  /** An exponential average does not leave an interval between ticks that holds the prices it has seen. */
  lemma {:induction false} EmaWithinPrices(xs: seq<real>, period: nat, i: nat, lo: real, hi: real)
    requires 1 <= period && period - 1 <= i < |xs| && IsTick(lo) && IsTick(hi)
    requires forall j :: 0 <= j <= i ==> lo <= xs[j] <= hi
    ensures lo <= EmaValue(xs, period, i) <= hi
  {
    if i == period - 1 {
      MeanWithin(xs[..period], lo, hi);
      Round4Within(Mean(xs[..period]), lo, hi);
    } else {
      EmaWithinPrices(xs, period, i - 1, lo, hi);
      BlendBetween(EmaValue(xs, period, i - 1), xs[i], period, lo, hi);
      Round4Within(Blend(EmaValue(xs, period, i - 1), xs[i], period), lo, hi);
    }
  }

  lemma BlendBetween(previous: real, price: real, period: nat, lo: real, hi: real)
    requires 1 <= period && lo <= previous <= hi && lo <= price <= hi
    ensures lo <= Blend(previous, price, period) <= hi
  {
    AlphaRange(period);
    StepBetween(previous, price, Alpha(period), lo, hi);
  }

  lemma StepBetween(previous: real, price: real, k: real, lo: real, hi: real)
    requires 0.0 < k <= 1.0 && lo <= previous <= hi && lo <= price <= hi
    ensures lo <= price * k + previous * (1.0 - k) <= hi
  {
    MulMono(lo, price, k);
    MulMono(price, hi, k);
    Complement(previous, k);
    MulFraction(lo, previous, k);
    MulFraction(previous, hi, k);
  }

  const TICK := 0.0001

  /** Prices of at least one tick have an average of at least one tick; it is not rounded to zero. */
  lemma {:induction false} EmaPositive(xs: seq<real>, period: nat, i: nat)
    requires 1 <= period && period - 1 <= i < |xs|
    requires forall j :: 0 <= j < |xs| ==> xs[j] >= TICK
    ensures EmaValue(xs, period, i) >= TICK
  {
    if i == period - 1 {
      MaxOfIsLargest(xs[..period]);
      MeanWithin(xs[..period], TICK, MaxOf(xs[..period]));
      StaysATick(Mean(xs[..period]));
    } else {
      EmaPositive(xs, period, i - 1);
      var e := EmaValue(xs, period, i - 1);
      BlendBetween(e, xs[i], period, TICK, Max(e, xs[i]));
      StaysATick(Blend(e, xs[i], period));
    }
  }

  lemma StaysATick(x: real)
    requires x >= TICK
    ensures Round4(x) >= TICK
  {
    Round4Monotone(TICK, x);
    Round4OfTick(TICK);
  }

  // ---------- MACD ----------

  /**
   * When the length guard passes, MACD and signal lines start where both averages and the signal
   * average exist, so the histogram has no gap after its first entry.
   */
  lemma MacdAlignment(prices: seq<real>, fast: nat, slow: nat, signal: nat, i: nat)
    requires 1 <= fast && 1 <= slow && 1 <= signal && i < |prices|
    ensures MacdAt(prices, fast, slow, i).Some? <==> fast <= i + 1 && slow <= i + 1
    ensures HistogramAt(prices, fast, slow, signal, i).Some? <==> SignalAt(prices, fast, slow, signal, i).Some?
    ensures SignalAt(prices, fast, slow, signal, i).Some? <==>
      fast + signal <= i + 2 && slow + signal <= i + 2
  {
  }

  /**
   * The length guard `len >= slow + signal` makes the last two MACD and signal entries available
   * exactly when the fast period passes the same guard; `fast <= slow` is enough.
   */
  lemma MacdGuardAdequate(prices: seq<real>, fast: nat, slow: nat, signal: nat)
    requires 1 <= fast && 1 <= slow && 1 <= signal
    requires |prices| >= slow + signal
    ensures (forall i :: |prices| - 2 <= i < |prices| ==>
      MacdAt(prices, fast, slow, i).Some? && SignalAt(prices, fast, slow, signal, i).Some?)
      <==> |prices| >= fast + signal
  {
    var n := |prices|;
    MacdAlignment(prices, fast, slow, signal, n - 1);
    MacdAlignment(prices, fast, slow, signal, n - 2);
    if n < fast + signal {
      assert SignalAt(prices, fast, slow, signal, n - 2).None?;
    }
  }

  /** The price level cancels in MACD: mirrored prices negate all three lines. */
  lemma MacdMirrors(xs: seq<real>, ys: seq<real>, fast: nat, slow: nat, signal: nat, i: nat, level: real)
    requires 1 <= fast && 1 <= slow && 1 <= signal && i < |xs| && Mirror(xs, ys, level) && IsEvenTick(level)
    ensures MacdAt(ys, fast, slow, i) == Mirrored(MacdAt(xs, fast, slow, i), 0.0)
    ensures SignalAt(ys, fast, slow, signal, i) == Mirrored(SignalAt(xs, fast, slow, signal, i), 0.0)
    ensures HistogramAt(ys, fast, slow, signal, i) == Mirrored(HistogramAt(xs, fast, slow, signal, i), 0.0)
  {
    var start := MacdStart(fast, slow);
    if i >= start {
      MacdLineMirrors(xs, ys, fast, slow, i, level);
      MacdValuesMirror(xs, ys, fast, slow, level);
      if i - start + 1 >= signal {
        EmaMirrors(MacdValues(xs, fast, slow), MacdValues(ys, fast, slow), signal, i - start, 0.0);
      }
      MinusMirrors(MacdAt(xs, fast, slow, i), SignalAt(xs, fast, slow, signal, i));
    }
  }

  lemma MinusMirrors(a: Option<real>, b: Option<real>)
    ensures Minus(Mirrored(a, 0.0), Mirrored(b, 0.0)) == Mirrored(Minus(a, b), 0.0)
  {
    if a.Some? && b.Some? {
      Round4Odd(a.value - b.value);
    }
  }

  lemma MacdLineMirrors(xs: seq<real>, ys: seq<real>, fast: nat, slow: nat, i: nat, level: real)
    requires 1 <= fast && 1 <= slow && MacdStart(fast, slow) <= i < |xs| && Mirror(xs, ys, level) && IsEvenTick(level)
    ensures Round4(EmaValue(ys, fast, i) - EmaValue(ys, slow, i)) == 0.0 - Round4(EmaValue(xs, fast, i) - EmaValue(xs, slow, i))
  {
    var f, s, g, t := EmaValue(xs, fast, i), EmaValue(xs, slow, i), EmaValue(ys, fast, i), EmaValue(ys, slow, i);
    assert g == level - f by {
      EmaMirrors(xs, ys, fast, i, level);
    }
    assert t == level - s by {
      EmaMirrors(xs, ys, slow, i, level);
    }
    DifferenceMirrors(f, s, g, t, level);
  }

  lemma DifferenceMirrors(f: real, s: real, g: real, t: real, level: real)
    requires g == level - f && t == level - s
    ensures Round4(g - t) == 0.0 - Round4(f - s)
  {
    Round4Odd(f - s);
  }

  lemma MacdValuesMirror(xs: seq<real>, ys: seq<real>, fast: nat, slow: nat, level: real)
    requires 1 <= fast && 1 <= slow && Mirror(xs, ys, level) && IsEvenTick(level)
    ensures Mirror(MacdValues(xs, fast, slow), MacdValues(ys, fast, slow), 0.0)
  {
    var start := MacdStart(fast, slow);
    var vx, vy := MacdValues(xs, fast, slow), MacdValues(ys, fast, slow);
    forall j | 0 <= j < |vx| ensures vy[j] == 0.0 - vx[j] {
      MacdLineMirrors(xs, ys, fast, slow, start + j, level);
    }
  }
}
