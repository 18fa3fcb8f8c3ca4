/**
 * The indicator loops of backend/engines/indicators.py, each proved to fill its list with the
 * values of IndicatorSpec.
 */
module IndicatorEngine {
  import opened Prelude
  import opened Rounding
  import opened IndicatorSpec

  /** A list of n missing values. */
  function Missing(n: nat): (gap: seq<Option<real>>)
    ensures |gap| == n && forall i :: 0 <= i < n ==> gap[i] == None
  {
    seq(n, i => None)
  }

  lemma SmaFromSum(prices: seq<real>, period: nat, i: nat, windowSum: real)
    requires 1 <= period <= i + 1 <= |prices| && windowSum == Sum(prices[i + 1 - period..i + 1])
    ensures SmaAt(prices, period, i) == Some(Round4(windowSum / period as real))
  {
  }

  method Sma(prices: seq<real>, period: nat) returns (result: seq<Option<real>>)
    requires 1 <= period
    ensures |result| == |prices|
    ensures forall i :: 0 <= i < |prices| ==> result[i] == SmaAt(prices, period, i)
  {
    if |prices| < period {
      return Missing(|prices|);
    }
    result := Missing(period - 1);
    var windowSum := Sum(prices[..period]);
    assert prices[0..period] == prices[..period];
    var first := Round4(windowSum / period as real);
    assert SmaAt(prices, period, period - 1) == Some(first) by {
      SmaFromSum(prices, period, period - 1, windowSum);
    }
    result := result + [Some(first)];
    for i := period to |prices|
      invariant |result| == i
      invariant windowSum == Sum(prices[i - period..i])
      invariant forall j :: 0 <= j < i ==> result[j] == SmaAt(prices, period, j)
    {
      windowSum := windowSum + (prices[i] - prices[i - period]);
      assert windowSum == Sum(prices[i + 1 - period..i + 1]) by {
        SumSlide(prices, i - period, i);
      }
      var sma := Round4(windowSum / period as real);
      assert SmaAt(prices, period, i) == Some(sma) by {
        SmaFromSum(prices, period, i, windowSum);
      }
      ghost var before := result;
      result := result + [Some(sma)];
      forall j | 0 <= j <= i ensures result[j] == SmaAt(prices, period, j) {
        assert j < i ==> result[j] == before[j];
      }
    }
  }

  method Ema(prices: seq<real>, period: nat) returns (result: seq<Option<real>>)
    requires 1 <= period
    ensures |result| == |prices|
    ensures forall i :: 0 <= i < |prices| ==> result[i] == EmaAt(prices, period, i)
  {
    if |prices| < period {
      return Missing(|prices|);
    }
    result := Missing(period - 1);
    var seed := Mean(prices[..period]);
    result := result + [Some(Round4(seed))];
    for i := period to |prices|
      invariant |result| == i
      invariant result[i - 1] == Some(EmaValue(prices, period, i - 1))
      invariant forall j :: 0 <= j < i ==> result[j] == EmaAt(prices, period, j)
    {
      var value := EmaStep(result[i - 1].value, prices[i], period);
      result := result + [Some(value)];
    }
  }

  lemma RsiFromAverages(prices: seq<real>, period: nat, i: nat, avgGain: real, avgLoss: real)
    requires 1 <= period <= i + 1 < |prices|
    requires avgGain == WilderMean(Gains(prices), period, i) && avgLoss == WilderMean(Losses(prices), period, i)
    ensures avgGain >= 0.0 && avgLoss >= 0.0
    ensures RsiAt(prices, period, i + 1) == Some(ToRsi(avgGain, avgLoss))
  {
    WilderMeanNonNegative(Gains(prices), period, i);
    WilderMeanNonNegative(Losses(prices), period, i);
  }

  lemma RsiFromPrevious(prices: seq<real>, period: nat, i: nat, avgGain: real, avgLoss: real)
    requires 1 <= period <= i && i + 1 < |prices|
    requires avgGain == WilderMean(Gains(prices), period, i - 1) && avgLoss == WilderMean(Losses(prices), period, i - 1)
    ensures var gain := WilderStep(avgGain, Gains(prices)[i], period);
      var loss := WilderStep(avgLoss, Losses(prices)[i], period);
      && gain == WilderMean(Gains(prices), period, i) && loss == WilderMean(Losses(prices), period, i)
      && gain >= 0.0 && loss >= 0.0 && RsiAt(prices, period, i + 1) == Some(ToRsi(gain, loss))
  {
    RsiFromAverages(prices, period, i, WilderMean(Gains(prices), period, i), WilderMean(Losses(prices), period, i));
  }

  method Rsi(prices: seq<real>, period: nat) returns (result: seq<Option<real>>)
    requires 1 <= period
    ensures |result| == |prices|
    ensures forall i :: 0 <= i < |prices| ==> result[i] == RsiAt(prices, period, i)
  {
    if |prices| < period + 1 {
      return Missing(|prices|);
    }
    var gains, losses := Gains(prices), Losses(prices);
    var avgGain, avgLoss := Mean(gains[..period]), Mean(losses[..period]);
    RsiFromAverages(prices, period, period - 1, avgGain, avgLoss);
    result := Missing(period) + [Some(ToRsi(avgGain, avgLoss))];
    for i := period to |gains|
      invariant |result| == i + 1
      invariant avgGain == WilderMean(gains, period, i - 1)
      invariant avgLoss == WilderMean(losses, period, i - 1)
      invariant forall j :: 0 <= j <= i ==> result[j] == RsiAt(prices, period, j)
    {
      RsiFromPrevious(prices, period, i, avgGain, avgLoss);
      ghost var before := result;
      avgGain, avgLoss := WilderStep(avgGain, gains[i], period), WilderStep(avgLoss, losses[i], period);
      result := result + [Some(ToRsi(avgGain, avgLoss))];
      forall j | 0 <= j <= i + 1 ensures result[j] == RsiAt(prices, period, j) {
        assert j <= i ==> result[j] == before[j];
      }
    }
  }

  datatype MacdResult = MacdResult(macdLine: seq<Option<real>>, signalLine: seq<Option<real>>,
                                   histogram: seq<Option<real>>)

  /** The values present in a list, in order. */
  function Present(xs: seq<Option<real>>): (values: seq<real>)
    ensures |values| <= |xs|
  {
    if xs == [] then []
    else Present(xs[..|xs| - 1]) + if xs[|xs| - 1].Some? then [xs[|xs| - 1].value] else []
  }

  lemma {:induction false} PresentAfterGap(gap: nat, xs: seq<Option<real>>, values: seq<real>)
    requires |xs| == gap + |values|
    requires forall i :: 0 <= i < gap ==> xs[i] == None
    requires forall i :: gap <= i < |xs| ==> xs[i] == Some(values[i - gap])
    ensures Present(xs) == values
  {
    if xs != [] {
      var m := |xs| - 1;
      if m < gap {
        PresentAfterGap(gap - 1, xs[..m], values);
      } else {
        PresentAfterGap(gap, xs[..m], values[..m - gap]);
        assert values == values[..m - gap] + [values[m - gap]];
      }
    }
  }

  /** Rounded pointwise difference of two aligned lists, missing where either is missing. */
  method Difference(xs: seq<Option<real>>, ys: seq<Option<real>>) returns (result: seq<Option<real>>)
    requires |xs| == |ys|
    ensures |result| == |xs|
    ensures forall i :: 0 <= i < |xs| ==> result[i] == Minus(xs[i], ys[i])
  {
    result := [];
    for i := 0 to |xs|
      invariant |result| == i
      invariant forall j :: 0 <= j < i ==> result[j] == Minus(xs[j], ys[j])
    {
      if xs[i].Some? && ys[i].Some? {
        result := result + [Some(Round4(xs[i].value - ys[i].value))];
      } else {
        result := result + [None];
      }
    }
  }

  lemma MacdLineIs(prices: seq<real>, fast: nat, slow: nat, line: seq<Option<real>>)
    requires 1 <= fast && 1 <= slow && |line| == |prices|
    requires forall i :: 0 <= i < |prices| ==> line[i] == Minus(EmaAt(prices, fast, i), EmaAt(prices, slow, i))
    ensures forall i :: 0 <= i < |prices| ==> line[i] == MacdAt(prices, fast, slow, i)
    ensures Present(line) == MacdValues(prices, fast, slow)
  {
    var start, values := MacdStart(fast, slow), MacdValues(prices, fast, slow);
    var gap := if |prices| <= start then |prices| else start;
    forall i | 0 <= i < |prices|
      ensures line[i] == MacdAt(prices, fast, slow, i)
      ensures line[i] == if i < gap then None else Some(values[i - gap])
    {
    }
    PresentAfterGap(gap, line, values);
  }

  lemma SignalLineIs(prices: seq<real>, fast: nat, slow: nat, signal: nat, line: seq<Option<real>>)
    requires 1 <= fast && 1 <= slow && 1 <= signal && |line| == |prices|
    requires var values := MacdValues(prices, fast, slow);
      var gap := |prices| - |values|;
      forall i :: 0 <= i < |prices| ==> line[i] == if i < gap then None else EmaAt(values, signal, i - gap)
    ensures forall i :: 0 <= i < |prices| ==> line[i] == SignalAt(prices, fast, slow, signal, i)
  {
  }

  method Macd(prices: seq<real>, fast: nat, slow: nat, signal: nat) returns (result: Option<MacdResult>)
    requires 1 <= fast && 1 <= slow && 1 <= signal
    ensures result.Some? <==> |prices| >= slow + signal
    ensures result.Some? ==>
      var r := result.value;
      && |r.macdLine| == |r.signalLine| == |r.histogram| == |prices|
      && forall i :: 0 <= i < |prices| ==>
        && r.macdLine[i] == MacdAt(prices, fast, slow, i)
        && r.signalLine[i] == SignalAt(prices, fast, slow, signal, i)
        && r.histogram[i] == HistogramAt(prices, fast, slow, signal, i)
  {
    if |prices| < slow + signal {
      return None;
    }
    var fastEma := Ema(prices, fast);
    var slowEma := Ema(prices, slow);
    var macdLine := Difference(fastEma, slowEma);
    MacdLineIs(prices, fast, slow, macdLine);
    var signalLine := SignalLine(macdLine, MacdValues(prices, fast, slow), signal);
    SignalLineIs(prices, fast, slow, signal, signalLine);
    var histogram := Difference(macdLine, signalLine);
    result := Some(MacdResult(macdLine, signalLine, histogram));
  }

  /** Signal average of the present MACD values, padded to the length of the MACD line. */
  method SignalLine(macdLine: seq<Option<real>>, ghost values: seq<real>, signal: nat)
    returns (signalLine: seq<Option<real>>)
    requires 1 <= signal && Present(macdLine) == values
    ensures |signalLine| == |macdLine|
    ensures var gap := |macdLine| - |values|;
      forall i :: 0 <= i < |macdLine| ==> signalLine[i] == if i < gap then None else EmaAt(values, signal, i - gap)
  {
    var validMacd := Present(macdLine);
    var signalEma := Ema(validMacd, signal);
    var noneCount := |macdLine| - |validMacd|;
    signalLine := Missing(noneCount) + signalEma;
  }

  method Atr(bars: Bars, period: nat) returns (result: seq<Option<real>>)
    requires bars.SameLength() && 1 <= period
    ensures |result| == |bars.closes|
    ensures forall i :: 0 <= i < |bars.closes| ==> result[i] == AtrAt(bars, period, i)
  {
    var highs, lows, closes := bars.highs, bars.lows, bars.closes;
    if |highs| < period + 1 {
      return Missing(|highs|);
    }
    var trueRanges := [highs[0] - lows[0]];
    for i := 1 to |highs|
      invariant trueRanges == AtrRanges(bars)[..i]
    {
      var tr := Max(Max(highs[i] - lows[i], Abs(highs[i] - closes[i - 1])), Abs(lows[i] - closes[i - 1]));
      trueRanges := trueRanges + [Round4(tr)];
    }
    assert trueRanges == AtrRanges(bars);
    result := Sma(trueRanges, period);
  }

  function SmoothedAt(values: seq<real>, period: nat, i: nat): Option<real>
    requires 1 <= period && i < |values|
  {
    if i + 1 < period then None else Some(WilderSum(values, period, i))
  }

  method Wilders(values: seq<real>, p: nat) returns (out: seq<Option<real>>)
    requires 1 <= p <= |values|
    ensures |out| == |values|
    ensures forall i :: 0 <= i < |values| ==> out[i] == SmoothedAt(values, p, i)
  {
    out := Missing(p - 1);
    var s := Sum(values[..p]);
    out := out + [Some(s)];
    for i := p to |values|
      invariant |out| == i
      invariant s == WilderSum(values, p, i - 1)
      invariant forall j :: 0 <= j < i ==> out[j] == SmoothedAt(values, p, j)
    {
      s := WilderSumStep(s, values[i], p);
      out := out + [Some(s)];
    }
  }

  datatype AdxResult = AdxResult(adx: seq<Option<real>>, plusDi: seq<Option<real>>, minusDi: seq<Option<real>>)

  /** True ranges and directional moves of every bar. */
  method DirectionalMoves(bars: Bars) returns (trs: seq<real>, plus: seq<real>, minus: seq<real>)
    requires bars.Complete() && |bars.closes| >= 1
    ensures trs == TrueRanges(bars) && plus == PlusMoves(bars) && minus == MinusMoves(bars)
  {
    var highs, lows, closes := bars.highs, bars.lows, bars.closes;
    plus, minus, trs := [0.0], [0.0], [highs[0] - lows[0]];
    for i := 1 to |closes|
      invariant trs == TrueRanges(bars)[..i]
      invariant plus == PlusMoves(bars)[..i]
      invariant minus == MinusMoves(bars)[..i]
    {
      var upMove := highs[i] - highs[i - 1];
      var downMove := lows[i - 1] - lows[i];
      plus := plus + [if upMove > downMove then Max(upMove, 0.0) else 0.0];
      minus := minus + [if downMove > upMove then Max(downMove, 0.0) else 0.0];
      var tr := Max(Max(highs[i] - lows[i], Abs(highs[i] - closes[i - 1])), Abs(lows[i] - closes[i - 1]));
      trs := trs + [tr];
    }
  }

  /** What one bar's smoothed range and moves say about its indicators. */
  lemma IndicatorsOfBar(bars: Bars, period: nat, i: nat)
    requires bars.Complete() && 1 <= period && LongEnough(bars, period) && i < |bars.closes|
    ensures var tr := SmoothedAt(TrueRanges(bars), period, i);
      var plus, minus := SmoothedAt(PlusMoves(bars), period, i), SmoothedAt(MinusMoves(bars), period, i);
      if tr.None? || tr.value == 0.0 then
        PlusDiAt(bars, period, i) == MinusDiAt(bars, period, i) == None
        && DxList(bars, period, i + 1) == DxList(bars, period, i)
      else
        plus.Some? && minus.Some?
        && var pdi, mdi := DiOf(plus.value, tr.value), DiOf(minus.value, tr.value);
        PlusDiAt(bars, period, i) == Some(pdi) && MinusDiAt(bars, period, i) == Some(mdi)
        && DxList(bars, period, i + 1) == DxList(bars, period, i) + [DxOf(pdi, mdi)]
  {
  }

  /** Both directional indicators bar by bar, and the DX values of the bars that have them. */
  method DirectionalIndicators(bars: Bars, period: nat)
    returns (plusDi: seq<Option<real>>, minusDi: seq<Option<real>>, dxs: seq<real>)
    requires bars.Complete() && 1 <= period && LongEnough(bars, period)
    ensures |plusDi| == |minusDi| == |bars.closes|
    ensures dxs == DxList(bars, period, |bars.closes|)
    ensures forall i :: 0 <= i < |bars.closes| ==>
      plusDi[i] == PlusDiAt(bars, period, i) && minusDi[i] == MinusDiAt(bars, period, i)
  {
    var trs, plusMoves, minusMoves := DirectionalMoves(bars);
    var smoothedTr := Wilders(trs, period);
    var smoothedPlus := Wilders(plusMoves, period);
    var smoothedMinus := Wilders(minusMoves, period);
    plusDi, minusDi, dxs := [], [], [];
    for i := 0 to |bars.closes|
      invariant |plusDi| == |minusDi| == i
      invariant dxs == DxList(bars, period, i)
      invariant forall j :: 0 <= j < i ==>
        plusDi[j] == PlusDiAt(bars, period, j) && minusDi[j] == MinusDiAt(bars, period, j)
    {
      ghost var plusBefore, minusBefore := plusDi, minusDi;
      IndicatorsOfBar(bars, period, i);
      if smoothedTr[i] == None || smoothedTr[i].value == 0.0 {
        plusDi, minusDi := plusDi + [None], minusDi + [None];
      } else {
        var pdi := DiOf(smoothedPlus[i].value, smoothedTr[i].value);
        var mdi := DiOf(smoothedMinus[i].value, smoothedTr[i].value);
        plusDi, minusDi := plusDi + [Some(pdi)], minusDi + [Some(mdi)];
        dxs := dxs + [DxOf(pdi, mdi)];
      }
      forall j | 0 <= j <= i
        ensures plusDi[j] == PlusDiAt(bars, period, j) && minusDi[j] == MinusDiAt(bars, period, j)
      {
        assert j < i ==> plusDi[j] == plusBefore[j] && minusDi[j] == minusBefore[j];
      }
    }
  }

  /** The values present, rounded to hundredths. */
  function Rounded(xs: seq<Option<real>>): (rounded: seq<Option<real>>)
    ensures |rounded| == |xs|
  {
    seq(|xs|, i requires 0 <= i < |xs| => if xs[i].Some? then Some(Round2(xs[i].value)) else None)
  }

  method Adx(bars: Bars, period: nat) returns (result: AdxResult)
    requires bars.Complete() && 1 <= period
    ensures |result.adx| == |result.plusDi| == |result.minusDi| == |bars.closes|
    ensures forall i :: 0 <= i < |bars.closes| ==>
      && result.adx[i] == AdxAt(bars, period, i)
      && result.plusDi[i] == PlusDiAt(bars, period, i)
      && result.minusDi[i] == MinusDiAt(bars, period, i)
  {
    var n := |bars.closes|;
    if n < period + 2 {
      return AdxResult(Missing(n), Missing(n), Missing(n));
    }
    var plusDi, minusDi, dxs := DirectionalIndicators(bars, period);
    var adx := Missing(n);
    if |dxs| >= period {
      var adxSmooth := Wilders(dxs, period);
      var nonePad := n - |adxSmooth|;
      adx := Missing(nonePad) + Rounded(adxSmooth);
    }
    result := AdxResult(adx, plusDi, minusDi);
  }

  method RollingHigh(prices: seq<real>, period: nat) returns (result: seq<Option<real>>)
    requires 1 <= period
    ensures |result| == |prices|
    ensures forall i :: 0 <= i < |prices| ==> result[i] == RollingHighAt(prices, period, i)
  {
    if |prices| < period {
      return Missing(|prices|);
    }
    result := Missing(period - 1);
    for i := period - 1 to |prices|
      invariant |result| == i
      invariant forall j :: 0 <= j < i ==> result[j] == RollingHighAt(prices, period, j)
    {
      result := result + [Some(MaxOf(prices[i + 1 - period..i + 1]))];
    }
  }

  method RollingLow(prices: seq<real>, period: nat) returns (result: seq<Option<real>>)
    requires 1 <= period
    ensures |result| == |prices|
    ensures forall i :: 0 <= i < |prices| ==> result[i] == RollingLowAt(prices, period, i)
  {
    if |prices| < period {
      return Missing(|prices|);
    }
    result := Missing(period - 1);
    for i := period - 1 to |prices|
      invariant |result| == i
      invariant forall j :: 0 <= j < i ==> result[j] == RollingLowAt(prices, period, j)
    {
      result := result + [Some(MinOf(prices[i + 1 - period..i + 1]))];
    }
  }
}
