/**
 * What each technical indicator is, position by position.
 *
 * Every indicator of backend/engines/indicators.py returns a list as long as its input whose
 * leading entries are missing; here an indicator is a function of the position, and the loops
 * that compute the lists (module IndicatorEngine) are proved to produce exactly these values. All
 * are rounded where the source rounds.
 */
module IndicatorSpec {
  import opened Prelude
  import opened Rounding

  /** Mean of the last `period` prices. */
  function SmaAt(prices: seq<real>, period: nat, i: nat): Option<real>
    requires 1 <= period && i < |prices|
  {
    if i + 1 < period then None
    else Some(Round4(Mean(prices[i + 1 - period..i + 1])))
  }

  /** Smoothing factor of an exponential average. */
  function Alpha(period: nat): real {
    2.0 / (period as real + 1.0)
  }

  /** The new price weighs Alpha, the previous average the rest. */
  function Blend(previous: real, price: real, period: nat): real {
    price * Alpha(period) + previous * (1.0 - Alpha(period))
  }

  /** One step of the exponential average; the rounded average is what the next step starts from. */
  function EmaStep(previous: real, price: real, period: nat): real {
    Round4(Blend(previous, price, period))
  }

  function EmaValue(prices: seq<real>, period: nat, i: nat): real
    requires 1 <= period && period - 1 <= i < |prices|
  {
    if i == period - 1 then Round4(Mean(prices[..period]))
    else EmaStep(EmaValue(prices, period, i - 1), prices[i], period)
  }

  function EmaAt(prices: seq<real>, period: nat, i: nat): Option<real>
    requires 1 <= period && i < |prices|
  {
    if i + 1 < period then None else Some(EmaValue(prices, period, i))
  }

  // ---------- Wilder smoothing ----------

  /** One step of Wilder's mean: the old mean weighs period - 1, the new value 1. */
  function WilderStep(mean: real, x: real, period: nat): real
    requires 1 <= period
  {
    (mean * (period as real - 1.0) + x) / period as real
  }

  /** Wilder's running mean, as RSI keeps it. */
  function WilderMean(xs: seq<real>, period: nat, i: nat): real
    requires 1 <= period && period - 1 <= i < |xs|
  {
    if i == period - 1 then Mean(xs[..period])
    else WilderStep(WilderMean(xs, period, i - 1), xs[i], period)
  }

  /** One step of Wilder's sum: a period-th of the sum is replaced by the new value. */
  function WilderSumStep(s: real, x: real, period: nat): real
    requires 1 <= period
  {
    s - s / period as real + x
  }

  /** Wilder's running sum, as ADX keeps it. */
  function WilderSum(xs: seq<real>, period: nat, i: nat): real
    requires 1 <= period && period - 1 <= i < |xs|
  {
    if i == period - 1 then Sum(xs[..period])
    else WilderSumStep(WilderSum(xs, period, i - 1), xs[i], period)
  }

  // ---------- Relative strength index ----------

  function Gains(prices: seq<real>): (gains: seq<real>)
    requires |prices| >= 1
    ensures |gains| == |prices| - 1
    ensures forall j :: 0 <= j < |gains| ==> gains[j] >= 0.0
  {
    seq(|prices| - 1, j requires 0 <= j < |prices| - 1 => Max(prices[j + 1] - prices[j], 0.0))
  }

  function Losses(prices: seq<real>): (losses: seq<real>)
    requires |prices| >= 1
    ensures |losses| == |prices| - 1
    ensures forall j :: 0 <= j < |losses| ==> losses[j] >= 0.0
  {
    seq(|prices| - 1, j requires 0 <= j < |prices| - 1 => Abs(Min(prices[j + 1] - prices[j], 0.0)))
  }

  function ToRsi(gain: real, loss: real): real
    requires gain >= 0.0 && loss >= 0.0
  {
    if loss == 0.0 && gain == 0.0 then 50.0
    else if loss == 0.0 then 100.0
    else if gain == 0.0 then 0.0
    else Round2(RsiOfRatio(gain, loss))
  }

  function RsiOfRatio(gain: real, loss: real): real
    requires gain > 0.0 && loss > 0.0
  {
    var rs := gain / loss;
    assert rs > 0.0;
    100.0 - 100.0 / (1.0 + rs)
  }

  function RsiAt(prices: seq<real>, period: nat, i: nat): Option<real>
    requires 1 <= period && i < |prices|
  {
    if i < period then None
    else
      WilderMeanNonNegative(Gains(prices), period, i - 1);
      WilderMeanNonNegative(Losses(prices), period, i - 1);
      Some(ToRsi(WilderMean(Gains(prices), period, i - 1), WilderMean(Losses(prices), period, i - 1)))
  }

  lemma {:induction false} WilderMeanNonNegative(xs: seq<real>, period: nat, i: nat)
    requires 1 <= period && period - 1 <= i < |xs|
    requires forall j :: 0 <= j < |xs| ==> xs[j] >= 0.0
    ensures WilderMean(xs, period, i) >= 0.0
  {
    if i == period - 1 {
      SumPositive(xs[..period]);
    } else {
      WilderMeanNonNegative(xs, period, i - 1);
      var m := WilderMean(xs, period, i - 1) * (period as real - 1.0);
      assert m >= 0.0;
    }
  }

  // ---------- MACD ----------

  /** First position at which both averages of the MACD line exist. */
  function MacdStart(fast: nat, slow: nat): nat
    requires 1 <= fast && 1 <= slow
  {
    if fast <= slow then slow - 1 else fast - 1
  }

  /** The defined part of the MACD line, without its leading gap. */
  function MacdValues(prices: seq<real>, fast: nat, slow: nat): (values: seq<real>)
    requires 1 <= fast && 1 <= slow
    ensures |values| == if |prices| <= MacdStart(fast, slow) then 0 else |prices| - MacdStart(fast, slow)
  {
    var start := MacdStart(fast, slow);
    var count := if |prices| <= start then 0 else |prices| - start;
    seq(count, j requires 0 <= j < count =>
      Round4(EmaValue(prices, fast, start + j) - EmaValue(prices, slow, start + j)))
  }

  function MacdAt(prices: seq<real>, fast: nat, slow: nat, i: nat): Option<real>
    requires 1 <= fast && 1 <= slow && i < |prices|
  {
    if i < MacdStart(fast, slow) then None
    else Some(Round4(EmaValue(prices, fast, i) - EmaValue(prices, slow, i)))
  }

  function SignalAt(prices: seq<real>, fast: nat, slow: nat, signal: nat, i: nat): Option<real>
    requires 1 <= fast && 1 <= slow && 1 <= signal && i < |prices|
  {
    if i < MacdStart(fast, slow) then None
    else EmaAt(MacdValues(prices, fast, slow), signal, i - MacdStart(fast, slow))
  }

  function HistogramAt(prices: seq<real>, fast: nat, slow: nat, signal: nat, i: nat): Option<real>
    requires 1 <= fast && 1 <= slow && 1 <= signal && i < |prices|
  {
    Minus(MacdAt(prices, fast, slow, i), SignalAt(prices, fast, slow, signal, i))
  }

  function Minus(a: Option<real>, b: Option<real>): Option<real> {
    if a.Some? && b.Some? then Some(Round4(a.value - b.value)) else None
  }

  // ---------- True range, ATR and the directional system ----------

  datatype Bars = Bars(highs: seq<real>, lows: seq<real>, closes: seq<real>) {
    /** The indexing `adx` performs: every close has a high and a low. */
    predicate Complete() {
      |closes| <= |highs| && |closes| <= |lows|
    }

    predicate SameLength() {
      |highs| == |lows| == |closes|
    }

    /** Each close lies within its bar. */
    predicate Ordered()
      requires Complete()
    {
      forall i :: 0 <= i < |closes| ==> lows[i] <= closes[i] <= highs[i]
    }
  }

  function TrueRange(bars: Bars, i: nat): real
    requires bars.Complete() && i < |bars.closes|
  {
    if i == 0 then bars.highs[0] - bars.lows[0]
    else
      Max(Max(bars.highs[i] - bars.lows[i], Abs(bars.highs[i] - bars.closes[i - 1])),
          Abs(bars.lows[i] - bars.closes[i - 1]))
  }

  function TrueRanges(bars: Bars): (trs: seq<real>)
    requires bars.Complete()
    ensures |trs| == |bars.closes|
  {
    seq(|bars.closes|, i requires 0 <= i < |bars.closes| => TrueRange(bars, i))
  }

  /** The true ranges ATR averages: rounded, all but the first bar's. */
  function AtrRange(bars: Bars, i: nat): real
    requires bars.Complete() && i < |bars.closes|
  {
    if i == 0 then TrueRange(bars, 0) else Round4(TrueRange(bars, i))
  }

  function AtrRanges(bars: Bars): (trs: seq<real>)
    requires bars.Complete()
    ensures |trs| == |bars.closes|
  {
    seq(|bars.closes|, i requires 0 <= i < |bars.closes| => AtrRange(bars, i))
  }

  function AtrAt(bars: Bars, period: nat, i: nat): Option<real>
    requires bars.SameLength() && 1 <= period && i < |bars.closes|
  {
    if |bars.highs| < period + 1 then None else SmaAt(AtrRanges(bars), period, i)
  }

  function PlusMove(bars: Bars, i: nat): real
    requires bars.Complete() && i < |bars.closes|
  {
    if i == 0 then 0.0
    else
      var up, down := bars.highs[i] - bars.highs[i - 1], bars.lows[i - 1] - bars.lows[i];
      if up > down then Max(up, 0.0) else 0.0
  }

  function MinusMove(bars: Bars, i: nat): real
    requires bars.Complete() && i < |bars.closes|
  {
    if i == 0 then 0.0
    else
      var up, down := bars.highs[i] - bars.highs[i - 1], bars.lows[i - 1] - bars.lows[i];
      if down > up then Max(down, 0.0) else 0.0
  }

  function PlusMoves(bars: Bars): (moves: seq<real>)
    requires bars.Complete()
    ensures |moves| == |bars.closes|
  {
    seq(|bars.closes|, i requires 0 <= i < |bars.closes| => PlusMove(bars, i))
  }

  function MinusMoves(bars: Bars): (moves: seq<real>)
    requires bars.Complete()
    ensures |moves| == |bars.closes|
  {
    seq(|bars.closes|, i requires 0 <= i < |bars.closes| => MinusMove(bars, i))
  }

  /** Whether the directional indicators exist at bar i. */
  predicate DiDefined(bars: Bars, period: nat, i: nat)
    requires bars.Complete() && 1 <= period && i < |bars.closes|
  {
    period - 1 <= i && WilderSum(TrueRanges(bars), period, i) != 0.0
  }

  /** Smoothed directional movement as a percentage of the smoothed true range. */
  function Share(move: real, range: real): real
    requires range != 0.0
  {
    100.0 * move / range
  }

  function DiOf(move: real, range: real): real
    requires range != 0.0
  {
    Round2(Share(move, range))
  }

  function PlusDi(bars: Bars, period: nat, i: nat): real
    requires bars.Complete() && 1 <= period && i < |bars.closes| && DiDefined(bars, period, i)
  {
    DiOf(WilderSum(PlusMoves(bars), period, i), WilderSum(TrueRanges(bars), period, i))
  }

  function MinusDi(bars: Bars, period: nat, i: nat): real
    requires bars.Complete() && 1 <= period && i < |bars.closes| && DiDefined(bars, period, i)
  {
    DiOf(WilderSum(MinusMoves(bars), period, i), WilderSum(TrueRanges(bars), period, i))
  }

  /** Relative distance of the two directional indicators. */
  function DxOf(plus: real, minus: real): real {
    if plus + minus > 0.0 then Abs(plus - minus) / (plus + minus) * 100.0 else 0.0
  }

  function Dx(bars: Bars, period: nat, i: nat): real
    requires bars.Complete() && 1 <= period && i < |bars.closes| && DiDefined(bars, period, i)
  {
    DxOf(PlusDi(bars, period, i), MinusDi(bars, period, i))
  }

  /** DX of the first n bars, bars without directional indicators skipped. */
  function DxList(bars: Bars, period: nat, n: nat): (dxs: seq<real>)
    requires bars.Complete() && 1 <= period && n <= |bars.closes|
    ensures |dxs| <= n
  {
    if n == 0 then []
    else if DiDefined(bars, period, n - 1) then DxList(bars, period, n - 1) + [Dx(bars, period, n - 1)]
    else DxList(bars, period, n - 1)
  }

  predicate LongEnough(bars: Bars, period: nat) {
    period + 2 <= |bars.closes|
  }

  function PlusDiAt(bars: Bars, period: nat, i: nat): Option<real>
    requires bars.Complete() && 1 <= period && i < |bars.closes|
  {
    if LongEnough(bars, period) && DiDefined(bars, period, i) then Some(PlusDi(bars, period, i)) else None
  }

  function MinusDiAt(bars: Bars, period: nat, i: nat): Option<real>
    requires bars.Complete() && 1 <= period && i < |bars.closes|
  {
    if LongEnough(bars, period) && DiDefined(bars, period, i) then Some(MinusDi(bars, period, i)) else None
  }

  function AdxAt(bars: Bars, period: nat, i: nat): Option<real>
    requires bars.Complete() && 1 <= period && i < |bars.closes|
  {
    PaddedAdx(DxList(bars, period, |bars.closes|), |bars.closes|, period, i)
  }

  /** Entry of the ADX list of n bars: Wilder's sum, rounded, over the DX values, padded at the front. */
  function PaddedAdx(dxs: seq<real>, n: nat, period: nat, i: nat): Option<real>
    requires |dxs| <= n && 1 <= period && i < n
  {
    var pad := n - |dxs|;
    if period + 2 <= n && period <= |dxs| && pad + period - 1 <= i then Some(Round2(WilderSum(dxs, period, i - pad)))
    else None
  }

  // ---------- Rolling extremes ----------

  function RollingHighAt(prices: seq<real>, period: nat, i: nat): Option<real>
    requires 1 <= period && i < |prices|
  {
    if i + 1 < period then None else Some(MaxOf(prices[i + 1 - period..i + 1]))
  }

  function RollingLowAt(prices: seq<real>, period: nat, i: nat): Option<real>
    requires 1 <= period && i < |prices|
  {
    if i + 1 < period then None else Some(MinOf(prices[i + 1 - period..i + 1]))
  }
}
