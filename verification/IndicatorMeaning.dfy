/**
 * What the indicators of backend/engines/indicators.py say about the prices, without the formulas
 * that compute them: how far an average moves, which differences are exact, what a range spans.
 */
module IndicatorMeaning {
  import opened Prelude
  import opened Rounding
  import opened IndicatorSpec
  import opened MovingAverageLaws
  import opened AdxLaws

  /** How far rounding to ten-thousandths can move a value. */
  const HALF_TICK := 0.00005

  /** x and y differ by at most eps. */
  predicate Near(x: real, y: real, eps: real) {
    y - eps <= x <= y + eps
  }

  lemma Round4Near(x: real)
    ensures Near(Round4(x), x, HALF_TICK)
  {
    NearestBetween(x * 10000.0);
  }

  lemma Round2Near(x: real)
    ensures Near(Round2(x), x, 0.005)
  {
    NearestBetween(x * 100.0);
  }

  /** x taken n times is the total, to within eps each time. */
  predicate NearTimes(x: real, n: real, total: real, eps: real) {
    Near(x * n, total, eps * n)
  }

  lemma NearQuotient(x: real, exact: real, n: real, total: real, eps: real)
    requires Near(x, exact, eps) && n > 0.0 && exact * n == total
    ensures NearTimes(x, n, total, eps)
  {
    MulMono(x, exact + eps, n);
    MulMono(exact - eps, x, n);
    assert (exact + eps) * n == exact * n + eps * n;
    assert (exact - eps) * n == exact * n - eps * n;
  }

  lemma NearMean(x: real, xs: seq<real>)
    requires xs != [] && x == Round4(Mean(xs))
    ensures NearTimes(x, |xs| as real, Sum(xs), HALF_TICK)
  {
    var n, exact := |xs| as real, Mean(xs);
    assert exact * n == Sum(xs);
    Round4Near(exact);
    NearQuotient(x, exact, n, Sum(xs), HALF_TICK);
  }

  // ---------- Averages ----------

  /** The simple average, taken `period` times, is the sum of the last `period` prices, rounding aside. */
  lemma SmaIsMean(prices: seq<real>, period: nat, i: nat)
    requires 1 <= period <= i + 1 <= |prices|
    ensures SmaAt(prices, period, i).Some?
    ensures NearTimes(SmaAt(prices, period, i).value, period as real, Sum(prices[i + 1 - period..i + 1]), HALF_TICK)
  {
    NearMean(SmaAt(prices, period, i).value, prices[i + 1 - period..i + 1]);
  }

  /** An exponential average starts at the mean of the first `period` prices. */
  lemma EmaSeed(prices: seq<real>, period: nat)
    requires 1 <= period <= |prices|
    ensures NearTimes(EmaValue(prices, period, period - 1), period as real, Sum(prices[..period]), HALF_TICK)
  {
    NearMean(EmaValue(prices, period, period - 1), prices[..period]);
  }

  /**
   * Every further price moves the average 2 / (period + 1) of the way to it, rounding aside: half the
   * way for period 3.
   */
  lemma EmaMoves(prices: seq<real>, period: nat, i: nat)
    requires 1 <= period <= i < |prices|
    ensures var before, after := EmaValue(prices, period, i - 1), EmaValue(prices, period, i);
      NearTimes(after - before, period as real + 1.0, 2.0 * (prices[i] - before), HALF_TICK)
  {
    StepMoves(EmaValue(prices, period, i - 1), prices[i], period);
  }

  lemma StepMoves(previous: real, price: real, period: nat)
    ensures NearTimes(EmaStep(previous, price, period) - previous, period as real + 1.0, 2.0 * (price - previous), HALF_TICK)
  {
    var exact, after := Blend(previous, price, period), EmaStep(previous, price, period);
    BlendMoves(previous, price, period);
    Round4Near(exact);
    assert Near(after - previous, exact - previous, HALF_TICK);
    NearQuotient(after - previous, exact - previous, period as real + 1.0, 2.0 * (price - previous), HALF_TICK);
  }

  lemma BlendMoves(previous: real, price: real, period: nat)
    ensures (Blend(previous, price, period) - previous) * (period as real + 1.0) == 2.0 * (price - previous)
  {
    var k, share := Alpha(period), period as real + 1.0;
    assert k * share == 2.0;
    Complement(previous, k);
    assert Blend(previous, price, period) - previous == price * k - previous * k == (price - previous) * k;
    assert (price - previous) * k * share == (price - previous) * (k * share);
  }

  /** Wilder's mean moves a period-th of the way to each further value. */
  lemma WilderMoves(xs: seq<real>, period: nat, i: nat)
    requires 1 <= period <= i < |xs|
    ensures (WilderMean(xs, period, i) - WilderMean(xs, period, i - 1)) * period as real
         == xs[i] - WilderMean(xs, period, i - 1)
  {
    var before, p := WilderMean(xs, period, i - 1), period as real;
    var after := WilderStep(before, xs[i], period);
    assert after * p == before * (p - 1.0) + xs[i];
    assert before * (p - 1.0) == before * p - before;
    assert (after - before) * p == after * p - before * p;
  }

  // ---------- MACD ----------

  lemma RoundedIsTick(x: real)
    ensures IsTick(Round4(x))
  {
    WholeIsTick(Round4(x), Nearest(x * 10000.0));
  }

  lemma WholeIsTick(x: real, n: int)
    requires x == n as real / 10000.0
    ensures IsTick(x)
  {
    assert x * 10000.0 == n as real;
  }

  lemma EmaIsTick(prices: seq<real>, period: nat, i: nat)
    requires 1 <= period && period - 1 <= i < |prices|
    ensures IsTick(EmaValue(prices, period, i))
  {
    if i == period - 1 {
      RoundedIsTick(Mean(prices[..period]));
    } else {
      RoundedIsTick(Blend(EmaValue(prices, period, i - 1), prices[i], period));
    }
  }

  /** A difference of whole ticks needs no rounding. */
  lemma DifferenceIsExact(x: real, y: real)
    requires IsTick(x) && IsTick(y)
    ensures Round4(x - y) == x - y
  {
    var m, n := (x * 10000.0).Floor, (y * 10000.0).Floor;
    assert (x - y) * 10000.0 == (m - n) as real;
    Round4OfTick(x - y);
  }

  /** The MACD line is exactly what the fast average is above the slow one; no rounding is lost. */
  lemma MacdIsDifference(prices: seq<real>, fast: nat, slow: nat, i: nat)
    requires 1 <= fast <= i + 1 && 1 <= slow <= i + 1 && i < |prices|
    ensures MacdAt(prices, fast, slow, i).Some?
    ensures MacdAt(prices, fast, slow, i).value + EmaAt(prices, slow, i).value == EmaAt(prices, fast, i).value
  {
    EmaIsTick(prices, fast, i);
    EmaIsTick(prices, slow, i);
    DifferenceIsExact(EmaValue(prices, fast, i), EmaValue(prices, slow, i));
  }

  /** The histogram is exactly what the MACD line is above its signal line, and exists where that does. */
  lemma HistogramIsDifference(prices: seq<real>, fast: nat, slow: nat, signal: nat, i: nat)
    requires 1 <= fast && 1 <= slow && 1 <= signal && i < |prices|
    ensures var line, average := MacdAt(prices, fast, slow, i), SignalAt(prices, fast, slow, signal, i);
      var histogram := HistogramAt(prices, fast, slow, signal, i);
      && (histogram.Some? <==> line.Some? && average.Some?)
      && (histogram.Some? ==> histogram.value + average.value == line.value)
  {
    var start := MacdStart(fast, slow);
    if i >= start && SignalAt(prices, fast, slow, signal, i).Some? {
      RoundedIsTick(EmaValue(prices, fast, i) - EmaValue(prices, slow, i));
      EmaIsTick(MacdValues(prices, fast, slow), signal, i - start);
      DifferenceIsExact(MacdAt(prices, fast, slow, i).value, SignalAt(prices, fast, slow, signal, i).value);
    }
  }

  /** The signal line moves 2 / (signal + 1) of the way to the MACD line, rounding aside. */
  lemma SignalFollowsMacd(prices: seq<real>, fast: nat, slow: nat, signal: nat, i: nat)
    requires 1 <= fast && 1 <= slow && 1 <= signal && 1 <= i < |prices|
    requires SignalAt(prices, fast, slow, signal, i - 1).Some?
    ensures SignalAt(prices, fast, slow, signal, i).Some? && MacdAt(prices, fast, slow, i).Some?
    ensures var before, after := SignalAt(prices, fast, slow, signal, i - 1).value, SignalAt(prices, fast, slow, signal, i).value;
      NearTimes(after - before, signal as real + 1.0, 2.0 * (MacdAt(prices, fast, slow, i).value - before), HALF_TICK)
  {
    EmaMoves(MacdValues(prices, fast, slow), signal, i - MacdStart(fast, slow));
  }

  // ---------- True range ----------

  /** The true range of a bar is the span of the bar and the close before it. */
  lemma TrueRangeIsSpan(bars: Bars, i: nat)
    requires bars.Complete() && i < |bars.closes| && bars.lows[i] <= bars.highs[i]
    ensures TrueRange(bars, i) ==
      if i == 0 then bars.highs[0] - bars.lows[0]
      else Max(bars.highs[i], bars.closes[i - 1]) - Min(bars.lows[i], bars.closes[i - 1])
  {
  }

  /** Sums of values each within half a tick of one another. */
  lemma {:induction false} SumNear(xs: seq<real>, ys: seq<real>, lo: nat, hi: nat)
    requires lo <= hi <= |xs| == |ys| && forall j :: lo <= j < hi ==> Near(xs[j], ys[j], HALF_TICK)
    ensures Near(Sum(xs[lo..hi]), Sum(ys[lo..hi]), HALF_TICK * (hi - lo) as real)
    decreases hi
  {
    if lo < hi {
      SumNear(xs, ys, lo, hi - 1);
      assert xs[lo..hi][..hi - 1 - lo] == xs[lo..hi - 1] && ys[lo..hi][..hi - 1 - lo] == ys[lo..hi - 1];
      assert Near(xs[hi - 1], ys[hi - 1], HALF_TICK);
    }
  }

  lemma RangesNear(bars: Bars, lo: nat, hi: nat)
    requires bars.Complete() && 1 <= lo <= hi <= |bars.closes|
    ensures Near(Sum(AtrRanges(bars)[lo..hi]), Sum(TrueRanges(bars)[lo..hi]), HALF_TICK * (hi - lo) as real)
  {
    var rounded, exact := AtrRanges(bars), TrueRanges(bars);
    forall j | lo <= j < hi ensures Near(rounded[j], exact[j], HALF_TICK) {
      RangeNear(bars, j);
    }
    SumNear(rounded, exact, lo, hi);
  }

  lemma RangeNear(bars: Bars, i: nat)
    requires bars.Complete() && 1 <= i < |bars.closes|
    ensures Near(AtrRanges(bars)[i], TrueRanges(bars)[i], HALF_TICK)
  {
    Round4Near(TrueRange(bars, i));
  }

  /** ATR is the mean of the last true ranges, to within the two roundings. */
  lemma AtrIsMeanRange(bars: Bars, period: nat, i: nat)
    requires bars.SameLength() && 1 <= period <= i < |bars.closes|
    ensures AtrAt(bars, period, i).Some?
    ensures NearTimes(AtrAt(bars, period, i).value, period as real, Sum(TrueRanges(bars)[i + 1 - period..i + 1]), TICK)
  {
    SmaIsMean(AtrRanges(bars), period, i);
    RangesNear(bars, i + 1 - period, i + 1);
    NearTwice(AtrAt(bars, period, i).value, period as real, Sum(AtrRanges(bars)[i + 1 - period..i + 1]),
              Sum(TrueRanges(bars)[i + 1 - period..i + 1]));
  }

  lemma NearTwice(x: real, n: real, rounded: real, exact: real)
    requires NearTimes(x, n, rounded, HALF_TICK) && Near(rounded, exact, HALF_TICK * n)
    ensures NearTimes(x, n, exact, TICK)
  {
    assert TICK * n == HALF_TICK * n + HALF_TICK * n;
  }

  // ---------- The directional system ----------

  lemma DiNear(move: real, range: real)
    requires range > 0.0
    ensures NearTimes(DiOf(move, range), range, 100.0 * move, 0.005)
  {
    var exact := Share(move, range);
    assert exact * range == 100.0 * move;
    Round2Near(exact);
    NearQuotient(DiOf(move, range), exact, range, 100.0 * move, 0.005);
  }

  /** +DI and -DI are the percentages of the smoothed range that moved up and down, to half a hundredth. */
  lemma IndicatorsAreShares(bars: Bars, period: nat, i: nat)
    requires bars.Complete() && bars.Ordered() && LongEnough(bars, period) && 1 <= period && i < |bars.closes|
    requires DiDefined(bars, period, i)
    ensures var range := WilderSum(TrueRanges(bars), period, i);
      && range > 0.0
      && PlusDiAt(bars, period, i).Some? && MinusDiAt(bars, period, i).Some?
      && NearTimes(PlusDiAt(bars, period, i).value, range, 100.0 * WilderSum(PlusMoves(bars), period, i), 0.005)
      && NearTimes(MinusDiAt(bars, period, i).value, range, 100.0 * WilderSum(MinusMoves(bars), period, i), 0.005)
  {
    SmoothedMovesWithinRange(bars, period, i);
    var range := WilderSum(TrueRanges(bars), period, i);
    DiNear(WilderSum(PlusMoves(bars), period, i), range);
    DiNear(WilderSum(MinusMoves(bars), period, i), range);
  }

  /** The share of the sum that is distance, in percent. */
  predicate RelativeDistance(dx: real, plus: real, minus: real) {
    && dx * (plus + minus) == 100.0 * Abs(plus - minus)
    && (dx == 0.0 <==> plus == minus)
    && (dx == 100.0 <==> (plus == 0.0) != (minus == 0.0))
  }

  lemma DxOfDistance(plus: real, minus: real)
    requires plus >= 0.0 && minus >= 0.0
    ensures RelativeDistance(DxOf(plus, minus), plus, minus)
  {
    var s, d := plus + minus, Abs(plus - minus);
    if s > 0.0 {
      var q := d / s;
      assert q * s == d;
      assert q * 100.0 * s == 100.0 * d;
      if d == s {
        DivUnique(d, s, 1.0);
      }
    }
  }

  /**
   * DX is the distance of the two directional indicators relative to their sum, in percent. It is zero
   * exactly when they are equal, and 100 exactly when one of them alone is zero.
   */
  lemma DxIsRelativeDistance(bars: Bars, period: nat, i: nat)
    requires bars.Complete() && bars.Ordered() && LongEnough(bars, period) && 1 <= period && i < |bars.closes|
    requires DiDefined(bars, period, i)
    ensures PlusDiAt(bars, period, i).Some? && MinusDiAt(bars, period, i).Some?
    ensures RelativeDistance(Dx(bars, period, i), PlusDiAt(bars, period, i).value, MinusDiAt(bars, period, i).value)
  {
    DirectionalIndicatorsBounded(bars, period, i);
    DxOfDistance(PlusDi(bars, period, i), MinusDi(bars, period, i));
  }

  /** The two directional indicators agree wherever they exist. */
  ghost predicate NoDirection(bars: Bars, period: nat)
    requires bars.Complete() && 1 <= period
  {
    forall j :: 0 <= j < |bars.closes| ==> PlusDiAt(bars, period, j) == MinusDiAt(bars, period, j)
  }

  lemma {:induction false} NoDirectionNoDx(bars: Bars, period: nat, n: nat)
    requires bars.Complete() && bars.Ordered() && LongEnough(bars, period) && 1 <= period && n <= |bars.closes|
    requires NoDirection(bars, period)
    ensures forall j :: 0 <= j < |DxList(bars, period, n)| ==> DxList(bars, period, n)[j] == 0.0
  {
    if n > 0 {
      NoDirectionNoDx(bars, period, n - 1);
      if DiDefined(bars, period, n - 1) {
        assert PlusDiAt(bars, period, n - 1) == MinusDiAt(bars, period, n - 1);
        DxIsRelativeDistance(bars, period, n - 1);
      }
    }
  }

  /** A market without direction has no trend strength. */
  lemma NoDirectionNoTrend(bars: Bars, period: nat, i: nat)
    requires bars.Complete() && bars.Ordered() && 1 <= period && i < |bars.closes|
    requires NoDirection(bars, period) && AdxAt(bars, period, i).Some?
    ensures AdxAt(bars, period, i) == Some(0.0)
  {
    var dxs := DxList(bars, period, |bars.closes|);
    NoDirectionNoDx(bars, period, |bars.closes|);
    WilderSumConstant(dxs, period, i - (|bars.closes| - |dxs|), 0.0);
    Round2OfInt(0);
  }

  // ---------- A market that goes up and down ----------

  /** Four bars of range 1 that go up, down and up again by 1. */
  const ZIGZAG := Bars([10.0, 11.0, 10.0, 11.0], [9.0, 10.0, 9.0, 10.0], [9.5, 10.5, 9.5, 10.5])

  lemma ZigzagMoves()
    ensures TrueRanges(ZIGZAG) == [1.0, 1.5, 1.5, 1.5]
    ensures PlusMoves(ZIGZAG) == [0.0, 1.0, 0.0, 1.0]
    ensures MinusMoves(ZIGZAG) == [0.0, 0.0, 1.0, 0.0]
  {
  }

  lemma FirstSums(a: real, b: real, c: real, d: real)
    ensures WilderSum([a, b, c, d], 2, 1) == a + b
    ensures WilderSum([a, b, c, d], 2, 2) == (a + b) / 2.0 + c
  {
    var xs := [a, b, c, d];
    assert xs[..2] == [a, b] && [a, b][..1] == [a] && [a][..0] == [];
    assert Sum([a]) == a && Sum([a, b]) == a + b;
  }

  lemma DisAre(bars: Bars, period: nat, i: nat, range: real, up: real, down: real)
    requires bars.Complete() && 1 <= period && period - 1 <= i < |bars.closes| && range != 0.0
    requires WilderSum(TrueRanges(bars), period, i) == range
    requires WilderSum(PlusMoves(bars), period, i) == up && WilderSum(MinusMoves(bars), period, i) == down
    ensures DiDefined(bars, period, i)
    ensures PlusDi(bars, period, i) == DiOf(up, range) && MinusDi(bars, period, i) == DiOf(down, range)
    ensures Dx(bars, period, i) == DxOf(DiOf(up, range), DiOf(down, range))
  {
  }

  lemma ZigzagShares()
    ensures DiOf(1.0, 2.5) == 40.0 && DiOf(0.0, 2.5) == 0.0
    ensures DiOf(0.5, 2.75) == 18.18 && DiOf(1.0, 2.75) == 36.36
  {
  }

  lemma ZigzagDx()
    ensures DiDefined(ZIGZAG, 2, 1) && DiDefined(ZIGZAG, 2, 2)
    ensures Dx(ZIGZAG, 2, 1) == 100.0 && Near(Dx(ZIGZAG, 2, 2), 33.3333, 0.0001)
  {
    ZigzagMoves();
    FirstSums(1.0, 1.5, 1.5, 1.5);
    FirstSums(0.0, 1.0, 0.0, 1.0);
    FirstSums(0.0, 0.0, 1.0, 0.0);
    DisAre(ZIGZAG, 2, 1, 2.5, 1.0, 0.0);
    DisAre(ZIGZAG, 2, 2, 2.75, 0.5, 1.0);
    ZigzagDistances();
  }

  lemma ZigzagDistances()
    ensures DxOf(DiOf(1.0, 2.5), DiOf(0.0, 2.5)) == 100.0
    ensures Near(DxOf(DiOf(0.5, 2.75), DiOf(1.0, 2.75)), 33.3333, 0.0001)
  {
    ZigzagShares();
    DxOfDistance(40.0, 0.0);
    DxOfDistance(18.18, 36.36);
  }

  lemma FirstEntry(bars: Bars)
    requires |bars.closes| == 4 && bars.Complete() && bars.lows[0] <= bars.highs[0]
    requires DiDefined(bars, 2, 1) && DiDefined(bars, 2, 2)
    ensures AdxAt(bars, 2, 2) == Some(Round2(Dx(bars, 2, 1) + Dx(bars, 2, 2)))
  {
    SmoothedRangeStaysPositive(bars, 2);
    AdxAligned(bars, 2, 1, 2);
    SumOfTwo(DxSlice(bars, 2, 1, 3));
  }

  lemma SumOfTwo(xs: seq<real>)
    requires |xs| == 2
    ensures Sum(xs) == xs[0] + xs[1]
  {
    assert xs[..1] == [xs[0]] && [xs[0]][..0] == [];
    assert Sum([xs[0]]) == xs[0];
  }

  /** At the turn -DI is twice +DI and DX a third of its scale; the first ADX entry adds that to 100. */
  lemma ZigzagAdx()
    ensures AdxAt(ZIGZAG, 2, 2) == Some(133.33)
  {
    ZigzagDx();
    FirstEntry(ZIGZAG);
    NearestIs(100.0 * (Dx(ZIGZAG, 2, 1) + Dx(ZIGZAG, 2, 2)), 13333);
  }

  lemma NearestIs(x: real, n: int)
    requires n as real - 0.5 < x < n as real + 0.5
    ensures Nearest(x) == n
  {
  }
}
