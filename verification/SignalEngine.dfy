/**
 * The strategies of backend/engines/signals.py as they run: indicator lists are computed, the last
 * entries are read, and a counter of confirmations is bumped. Each is proved to return the
 * decision of SignalSpec.
 */
module SignalEngine {
  import opened Prelude
  import opened Rounding
  import opened IndicatorSpec
  import opened MovingAverageLaws
  import opened SignalSpec
  import E = IndicatorEngine

  /** Values of a list whose entries are missing before position `gap` and present from there on. */
  lemma PresentSuffix(xs: seq<Option<real>>, gap: nat)
    requires gap <= |xs|
    requires forall i :: 0 <= i < |xs| ==> (xs[i].Some? <==> gap <= i)
    ensures |E.Present(xs)| == |xs| - gap
    ensures forall i :: gap <= i < |xs| ==> Some(E.Present(xs)[i - gap]) == xs[i]
  {
    var values := seq(|xs| - gap, j requires 0 <= j < |xs| - gap => xs[gap + j].value);
    E.PresentAfterGap(gap, xs, values);
  }

  method ComputeCommon(closes: seq<real>, volumes: seq<int>) returns (c: Common)
    requires closes != []
    ensures c == CommonOf(closes, volumes)
  {
    var n := |closes|;
    ghost var spec := CommonOf(closes, volumes);
    var rsiVals := E.Rsi(closes, 14);
    assert rsiVals[n - 1] == spec.rsi;
    var macd := E.Macd(closes, 12, 26, 9);
    var macdHist: Option<real> := None;
    if macd.Some? {
      var valid := E.Present(macd.value.histogram);
      PresentSuffix(macd.value.histogram, 33);
      if |valid| >= 2 {
        macdHist := Some(valid[|valid| - 1]);
      }
    }
    assert macdHist == spec.macdHist;
    var volRatio: Option<real> := None;
    if |volumes| >= 20 {
      var average := SumInt(volumes[|volumes| - 20..]) as real / 20.0;
      if average > 0.0 {
        var ratio := volumes[|volumes| - 1] as real / average;
        RatioZero(volumes[|volumes| - 1], average);
        volRatio := if ratio != 0.0 then Some(Round2(ratio)) else None;
      }
    }
    assert volRatio == spec.volRatio;
    var ema20 := E.Ema(closes, 20);
    assert ema20[n - 1] == spec.ema20;
    var ema50: Option<real> := None;
    if n >= 55 {
      var e := E.Ema(closes, 50);
      ema50 := e[n - 1];
    }
    assert ema50 == spec.ema50;
    c := Common(rsiVals[n - 1], macdHist, volRatio, ema20[n - 1], ema50);
  }

  lemma RatioZero(v: int, average: real)
    requires average > 0.0
    ensures v as real / average == 0.0 <==> v == 0
  {
    var q := v as real / average;
    assert q * average == v as real;
  }

  /** Bumps the confirmation counter once for every condition that holds. */
  method Confirm3(a: bool, b: bool, c: bool) returns (confirmations: nat)
    ensures confirmations == One(a) + One(b) + One(c)
  {
    confirmations := 0;
    if a {
      confirmations := confirmations + 1;
    }
    if b {
      confirmations := confirmations + 1;
    }
    if c {
      confirmations := confirmations + 1;
    }
  }

  method Confirm4(a: bool, b: bool, c: bool, d: bool) returns (confirmations: nat)
    ensures confirmations == One(a) + One(b) + One(c) + One(d)
  {
    confirmations := Confirm3(a, b, c);
    if d {
      confirmations := confirmations + 1;
    }
  }

  method Confirm5(a: bool, b: bool, c: bool, d: bool, e: bool) returns (confirmations: nat)
    ensures confirmations == One(a) + One(b) + One(c) + One(d) + One(e)
  {
    confirmations := Confirm4(a, b, c, d);
    if e {
      confirmations := confirmations + 1;
    }
  }

  /** Branches of `_sma_crossover` once its averages exist. */
  method DecideSma(prevShort: real, prevLong: real, currShort: real, currLong: real, c: Common) returns (s: Signal)
    ensures s == Decide(SmaCross(prevShort, prevLong, currShort, currLong, c), SMA_SCALE)
  {
    if prevShort <= prevLong && currShort > currLong {
      var confirmations := Confirm3(
        Truthy(c.rsi) && 35.0 <= c.rsi.value <= 70.0,
        Truthy(c.macdHist) && c.macdHist.value > 0.0,
        Truthy(c.volRatio) && c.volRatio.value >= 1.0);
      if confirmations >= 1 {
        return Signal(Buy, Min(0.5 + confirmations as real * 0.15, 0.95));
      }
      return HOLD;
    }
    if prevShort >= prevLong && currShort < currLong {
      var confirmations := Confirm3(
        Truthy(c.rsi) && 30.0 <= c.rsi.value <= 65.0,
        Truthy(c.macdHist) && c.macdHist.value < 0.0,
        Truthy(c.volRatio) && c.volRatio.value >= 1.0);
      if confirmations >= 1 {
        return Signal(Sell, Min(0.5 + confirmations as real * 0.15, 0.95));
      }
      return HOLD;
    }
    s := HOLD;
  }

  method SmaCrossover(m: Market, short: nat, long: nat) returns (s: Signal)
    requires 1 <= short && 1 <= long
    ensures s == Decide(SmaSetup(m, short, long), SMA_SCALE)
  {
    var n := |m.closes|;
    if n < long + 2 || n < 55 {
      return HOLD;
    }
    var shortSma := E.Sma(m.closes, short);
    var longSma := E.Sma(m.closes, long);
    var currShort, prevShort := shortSma[n - 1], shortSma[n - 2];
    var currLong, prevLong := longSma[n - 1], longSma[n - 2];
    if currShort.None? || prevShort.None? || currLong.None? || prevLong.None? {
      return HOLD;
    }
    var c := ComputeCommon(m.closes, m.volumes);
    s := DecideSma(prevShort.value, prevLong.value, currShort.value, currLong.value, c);
  }

  /** Branches of `_ema_crossover`; an unconfirmed cross falls through to the next test. */
  method DecideEma(prevFast: real, prevSlow: real, currFast: real, currSlow: real, c: Common) returns (s: Signal)
    ensures s == Decide(EmaCross(prevFast, prevSlow, currFast, currSlow, c), EMA_SCALE)
  {
    if prevFast <= prevSlow && currFast > currSlow {
      var confirmations := Confirm3(
        Truthy(c.rsi) && 40.0 <= c.rsi.value <= 70.0,
        Truthy(c.macdHist) && c.macdHist.value > 0.0,
        Truthy(c.volRatio) && c.volRatio.value >= 1.1);
      if confirmations >= 1 {
        return Signal(Buy, Min(0.5 + confirmations as real * 0.15, 0.95));
      }
    }
    if prevFast >= prevSlow && currFast < currSlow {
      var confirmations := Confirm3(
        Truthy(c.rsi) && 30.0 <= c.rsi.value <= 60.0,
        Truthy(c.macdHist) && c.macdHist.value < 0.0,
        Truthy(c.volRatio) && c.volRatio.value >= 1.1);
      if confirmations >= 1 {
        return Signal(Sell, Min(0.5 + confirmations as real * 0.15, 0.95));
      }
    }
    s := HOLD;
  }

  method EmaCrossover(m: Market, fast: nat, slow: nat) returns (s: Signal)
    requires 1 <= fast && 1 <= slow
    ensures s == Decide(EmaSetup(m, fast, slow), EMA_SCALE)
  {
    var n := |m.closes|;
    if n < slow + 2 || n < 55 {
      return HOLD;
    }
    var fastEma := E.Ema(m.closes, fast);
    var slowEma := E.Ema(m.closes, slow);
    var currFast, prevFast := fastEma[n - 1], fastEma[n - 2];
    var currSlow, prevSlow := slowEma[n - 1], slowEma[n - 2];
    if currFast.None? || prevFast.None? || currSlow.None? || prevSlow.None? {
      return HOLD;
    }
    var c := ComputeCommon(m.closes, m.volumes);
    s := DecideEma(prevFast.value, prevSlow.value, currFast.value, currSlow.value, c);
  }

  /** Branches of `_macd_strategy`; `validHist` holds the histogram without its gap. */
  method DecideMacd(prevMacd: real, prevSignal: real, currMacd: real, currSignal: real, validHist: seq<real>, c: Common)
    returns (s: Signal)
    requires validHist != []
    ensures s == Decide(MacdCross(prevMacd, prevSignal, currMacd, currSignal, Some(validHist[|validHist| - 1]),
      |validHist| >= 2 && Abs(validHist[|validHist| - 1]) > Abs(validHist[|validHist| - 2]), c), MACD_SCALE)
  {
    var v := |validHist|;
    var histGrowing := false;
    if v >= 2 {
      histGrowing := Abs(validHist[v - 1]) > Abs(validHist[v - 2]);
    }
    var hist := validHist[v - 1];
    ghost var setup := MacdCross(prevMacd, prevSignal, currMacd, currSignal, Some(hist), histGrowing, c);
    if prevMacd <= prevSignal && currMacd > currSignal {
      var confirmations := Confirm4(
        histGrowing && hist > 0.0,
        Truthy(c.rsi) && 30.0 <= c.rsi.value <= 65.0,
        currMacd > 0.0,
        Truthy(c.volRatio) && c.volRatio.value >= 1.0);
      assert confirmations == setup.upVotes;
      return Signal(Buy, Min(0.45 + confirmations as real * 0.12, 0.95));
    }
    if prevMacd >= prevSignal && currMacd < currSignal {
      var confirmations := Confirm4(
        histGrowing && hist < 0.0,
        Truthy(c.rsi) && 35.0 <= c.rsi.value <= 70.0,
        currMacd < 0.0,
        Truthy(c.volRatio) && c.volRatio.value >= 1.0);
      assert confirmations == setup.downVotes;
      return Signal(Sell, Min(0.45 + confirmations as real * 0.12, 0.95));
    }
    s := HOLD;
  }

  lemma MacdFromHistogram(e: MacdEntries, validHist: seq<real>, c: Common)
    requires e.prevMacd.Some? && e.prevSignal.Some? && e.currMacd.Some? && e.currSignal.Some? && |validHist| >= 2
    requires e.hist == Some(validHist[|validHist| - 1]) && e.prevHist == Some(validHist[|validHist| - 2])
    ensures MacdFrom(e, c) ==
      MacdCross(e.prevMacd.value, e.prevSignal.value, e.currMacd.value, e.currSignal.value,
                Some(validHist[|validHist| - 1]),
                |validHist| >= 2 && Abs(validHist[|validHist| - 1]) > Abs(validHist[|validHist| - 2]), c)
  {
  }

  /** With a signal entry two bars back, the last two values of the histogram without its gap are its last two entries. */
  lemma LastOfHistogram(prices: seq<real>, fast: nat, slow: nat, signal: nat, histogram: seq<Option<real>>)
    requires 1 <= fast && 1 <= slow && 1 <= signal && |histogram| == |prices| >= 2
    requires forall i :: 0 <= i < |prices| ==> histogram[i] == HistogramAt(prices, fast, slow, signal, i)
    requires SignalAt(prices, fast, slow, signal, |prices| - 2).Some?
    ensures var valid, n := E.Present(histogram), |prices|;
      |valid| >= 2 && Some(valid[|valid| - 1]) == histogram[n - 1] && Some(valid[|valid| - 2]) == histogram[n - 2]
  {
    var gap := MacdStart(fast, slow) + signal - 1;
    forall i | 0 <= i < |prices| ensures histogram[i].Some? <==> gap <= i {
      MacdAlignment(prices, fast, slow, signal, i);
    }
    PresentSuffix(histogram, gap);
  }

  lemma SetupFromEntries(m: Market, fast: nat, slow: nat, signal: nat, e: MacdEntries)
    requires 1 <= fast && 1 <= slow && 1 <= signal && |m.closes| >= slow + signal
    requires e == EntriesOf(m.closes, fast, slow, signal)
    ensures MacdSetup(m, fast, slow, signal) == MacdFrom(e, CommonOf(m.closes, m.volumes))
  {
  }

  /** Reads the last two entries of the three lines, and the histogram without its gap. */
  method ReadMacd(closes: seq<real>, fast: nat, slow: nat, signal: nat)
    returns (e: Option<MacdEntries>, validHist: seq<real>)
    requires 1 <= fast && 1 <= slow && 1 <= signal
    ensures e.Some? <==> |closes| >= slow + signal
    ensures e.Some? ==> e.value == EntriesOf(closes, fast, slow, signal)
    ensures e.Some? && e.value.prevSignal.Some? ==>
      && |validHist| >= 2
      && e.value.hist == Some(validHist[|validHist| - 1]) && e.value.prevHist == Some(validHist[|validHist| - 2])
  {
    var n := |closes|;
    var macd := E.Macd(closes, fast, slow, signal);
    if macd.None? {
      return None, [];
    }
    var line, signalLine, histogram := macd.value.macdLine, macd.value.signalLine, macd.value.histogram;
    validHist := E.Present(histogram);
    if signalLine[n - 2].Some? {
      LastOfHistogram(closes, fast, slow, signal, histogram);
    }
    e := Some(MacdEntries(line[n - 2], signalLine[n - 2], line[n - 1], signalLine[n - 1], histogram[n - 1], histogram[n - 2]));
  }

  method MacdStrategy(m: Market, fast: nat, slow: nat, signal: nat) returns (s: Signal)
    requires 1 <= fast && 1 <= slow && 1 <= signal
    ensures s == Decide(MacdSetup(m, fast, slow, signal), MACD_SCALE)
  {
    var read, validHist := ReadMacd(m.closes, fast, slow, signal);
    if read.None? {
      return HOLD;
    }
    var e := read.value;
    SetupFromEntries(m, fast, slow, signal, e);
    if e.currMacd.None? || e.prevMacd.None? || e.currSignal.None? || e.prevSignal.None? {
      return HOLD;
    }
    var c := ComputeCommon(m.closes, m.volumes);
    MacdFromHistogram(e, validHist, c);
    s := DecideMacd(e.prevMacd.value, e.prevSignal.value, e.currMacd.value, e.currSignal.value, validHist, c);
  }

  /** Branches of `_supertrend_strategy` once its channels are known. */
  method DecideChannel(prevPrice: real, currPrice: real, prevMid: real, currMid: real, prevBand: real, currBand: real,
                       c: Common) returns (s: Signal)
    ensures s == Decide(ChannelSetup(prevPrice, currPrice, prevMid, currMid, prevBand, currBand, c), SUPERTREND_SCALE)
  {
    ghost var setup := ChannelSetup(prevPrice, currPrice, prevMid, currMid, prevBand, currBand, c);
    var currUpper, currLower := currMid + currBand, currMid - currBand;
    var prevUpper, prevLower := prevMid + prevBand, prevMid - prevBand;
    var uptrend := c.ema20.Some? && c.ema50.Some? && currPrice >= c.ema20.value >= c.ema50.value;
    var downtrend := c.ema20.Some? && c.ema50.Some? && currPrice <= c.ema20.value <= c.ema50.value;
    if prevPrice <= prevLower && currPrice > currLower {
      var confirmations := Confirm4(
        uptrend,
        Truthy(c.rsi) && 35.0 <= c.rsi.value <= 70.0,
        Truthy(c.macdHist) && c.macdHist.value > 0.0,
        Truthy(c.volRatio) && c.volRatio.value >= 1.1);
      assert confirmations == setup.upVotes;
      if confirmations >= 2 {
        return Signal(Buy, Min(0.5 + confirmations as real * 0.1, 0.92));
      }
    }
    if prevPrice >= prevUpper && currPrice < currUpper {
      var confirmations := Confirm4(
        downtrend,
        Truthy(c.rsi) && 30.0 <= c.rsi.value <= 65.0,
        Truthy(c.macdHist) && c.macdHist.value < 0.0,
        Truthy(c.volRatio) && c.volRatio.value >= 1.1);
      assert confirmations == setup.downVotes;
      if confirmations >= 2 {
        return Signal(Sell, Min(0.5 + confirmations as real * 0.1, 0.92));
      }
    }
    s := HOLD;
  }

  method SupertrendStrategy(m: Market, atrPeriod: nat, multiplier: real) returns (s: Signal)
    requires 1 <= atrPeriod
    ensures s == Decide(SupertrendSetup(m, atrPeriod, multiplier), SUPERTREND_SCALE)
  {
    var n := |m.closes|;
    if !m.HasOhlc() || n < atrPeriod + 3 || n < 55 {
      return HOLD;
    }
    var atrVals := E.Atr(m.Bars(), atrPeriod);
    var currAtr, prevAtr := atrVals[n - 1], atrVals[n - 2];
    if currAtr.None? || prevAtr.None? {
      return HOLD;
    }
    var c := ComputeCommon(m.closes, m.volumes);
    s := DecideChannel(m.closes[n - 2], m.closes[n - 1], Mid(m, n - 2), Mid(m, n - 1),
                       Band(multiplier, prevAtr.value), Band(multiplier, currAtr.value), c);
  }

  /** Branches of `_atr_breakout_strategy` once its triggers are known. */
  method DecideTrigger(prevPrice: real, currPrice: real, upper: real, lower: real, c: Common) returns (s: Signal)
    ensures s == Decide(TriggerSetup(prevPrice, currPrice, upper, lower, c), ATR_BREAKOUT_SCALE)
  {
    if prevPrice <= upper && currPrice > upper {
      var confirmations := Confirm3(
        Truthy(c.volRatio) && c.volRatio.value >= 1.2,
        Truthy(c.macdHist) && c.macdHist.value > 0.0,
        Truthy(c.rsi) && c.rsi.value <= 75.0);
      if confirmations >= 2 {
        return Signal(Buy, Min(0.55 + confirmations as real * 0.1, 0.92));
      }
    }
    if prevPrice >= lower && currPrice < lower {
      var confirmations := Confirm3(
        Truthy(c.volRatio) && c.volRatio.value >= 1.2,
        Truthy(c.macdHist) && c.macdHist.value < 0.0,
        Truthy(c.rsi) && c.rsi.value >= 25.0);
      if confirmations >= 2 {
        return Signal(Sell, Min(0.55 + confirmations as real * 0.1, 0.92));
      }
    }
    s := HOLD;
  }

  method AtrBreakoutStrategy(m: Market, period: nat, breakout: real) returns (s: Signal)
    requires 1 <= period
    ensures s == Decide(AtrBreakoutSetup(m, period, breakout), ATR_BREAKOUT_SCALE)
  {
    var n := |m.closes|;
    if !m.HasOhlc() || n < period + 5 {
      return HOLD;
    }
    var atrVals := E.Atr(m.Bars(), period);
    var currAtr := atrVals[n - 1];
    if currAtr.None? {
      return HOLD;
    }
    var band := Band(breakout, currAtr.value);
    var lookbackHigh, lookbackLow := MaxOf(m.highs[n - period - 1..n - 1]), MinOf(m.lows[n - period - 1..n - 1]);
    assert lookbackHigh == RangeHigh(m, period) && lookbackLow == RangeLow(m, period);
    var upperTrigger, lowerTrigger := lookbackHigh + band, lookbackLow - band;
    var c := ComputeCommon(m.closes, m.volumes);
    s := DecideTrigger(m.closes[n - 2], m.closes[n - 1], upperTrigger, lowerTrigger, c);
  }

  /** Branches of `_momentum_breakout` once its reference levels are known. */
  method DecideBreakout(prevClose: real, currClose: real, prevHigh: real, prevLow: real, volMult: real, c: Common)
    returns (s: Signal)
    ensures s == Decide(BreakoutSetup(prevClose, currClose, prevHigh, prevLow, volMult, c), MOMENTUM_SCALE)
  {
    var volSurge := Truthy(c.volRatio) && c.volRatio.value >= volMult;
    if currClose > prevHigh && prevClose <= prevHigh {
      var confirmations := Confirm3(
        Truthy(c.rsi) && c.rsi.value > 50.0,
        volSurge,
        Truthy(c.macdHist) && c.macdHist.value > 0.0);
      if confirmations >= 1 {
        return Signal(Buy, Min(0.55 + confirmations as real * 0.15, 0.95));
      }
    }
    if currClose < prevLow && prevClose >= prevLow {
      var confirmations := Confirm3(
        Truthy(c.rsi) && c.rsi.value < 50.0,
        volSurge,
        Truthy(c.macdHist) && c.macdHist.value < 0.0);
      if confirmations >= 1 {
        return Signal(Sell, Min(0.55 + confirmations as real * 0.15, 0.95));
      }
    }
    s := HOLD;
  }

  method MomentumBreakout(m: Market, lookback: nat, volMult: real) returns (s: Signal)
    requires 1 <= lookback
    ensures s == Decide(MomentumSetup(m, lookback, volMult), MOMENTUM_SCALE)
  {
    var n := |m.closes|;
    if n < lookback + 5 {
      return HOLD;
    }
    var rollHigh := E.RollingHigh(m.highs, lookback);
    var rollLow := E.RollingLow(m.lows, lookback);
    var prevHigh := if |rollHigh| >= 2 then rollHigh[|rollHigh| - 2] else None;
    var prevLow := if |rollLow| >= 2 then rollLow[|rollLow| - 2] else None;
    if prevHigh.None? || prevLow.None? {
      return HOLD;
    }
    var c := ComputeCommon(m.closes, m.volumes);
    s := DecideBreakout(m.closes[n - 2], m.closes[n - 1], prevHigh.value, prevLow.value, volMult, c);
  }

  /** Branches of `_trend_strength_adx` once ADX and both directional indicators exist. */
  method DecideTrend(trendStrong: bool, adxRising: bool, pdi: real, mdi: real, diGap: real,
                     currFast: Option<real>, currSlow: Option<real>, c: Common) returns (s: Signal)
    ensures s == Decide(TrendSetup(trendStrong, adxRising, pdi, mdi, diGap, currFast, currSlow, c), TREND_SCALE)
  {
    ghost var setup := TrendSetup(trendStrong, adxRising, pdi, mdi, diGap, currFast, currSlow, c);
    if trendStrong && pdi > mdi && pdi - mdi >= diGap {
      var confirmations := Confirm5(
        Truthy(currFast) && Truthy(currSlow) && currFast.value > currSlow.value,
        Truthy(c.macdHist) && c.macdHist.value > 0.0,
        adxRising,
        Truthy(c.rsi) && 40.0 <= c.rsi.value <= 75.0,
        Truthy(c.volRatio) && c.volRatio.value >= 1.1);
      assert confirmations == setup.upVotes;
      if confirmations >= 2 {
        return Signal(Buy, Min(0.60 + confirmations as real * 0.07, 0.95));
      }
    }
    if trendStrong && mdi > pdi && mdi - pdi >= diGap {
      var confirmations := Confirm5(
        Truthy(currFast) && Truthy(currSlow) && currFast.value < currSlow.value,
        Truthy(c.macdHist) && c.macdHist.value < 0.0,
        adxRising,
        Truthy(c.rsi) && 25.0 <= c.rsi.value <= 60.0,
        Truthy(c.volRatio) && c.volRatio.value >= 1.1);
      assert confirmations == setup.downVotes;
      if confirmations >= 2 {
        return Signal(Sell, Min(0.60 + confirmations as real * 0.07, 0.95));
      }
    }
    s := HOLD;
  }

  method TrendStrengthStrategy(m: Market, threshold: real, diGap: real, fastPeriod: nat, slowPeriod: nat)
    returns (s: Signal)
    requires 1 <= fastPeriod && 1 <= slowPeriod
    requires |m.closes| >= 35 ==> m.Bars().Complete()
    ensures s == Decide(TrendStrengthSetup(m, threshold, diGap, fastPeriod, slowPeriod), TREND_SCALE)
  {
    var n := |m.closes|;
    if n < 35 {
      return HOLD;
    }
    var r := E.Adx(m.Bars(), 14);
    var currAdx, prevAdx := r.adx[n - 1], r.adx[n - 2];
    var currPdi, currMdi := r.plusDi[n - 1], r.minusDi[n - 1];
    var fastEma := E.Ema(m.closes, fastPeriod);
    var slowEma := E.Ema(m.closes, slowPeriod);
    var c := ComputeCommon(m.closes, m.volumes);
    s := DecideTrendStrength(currAdx, prevAdx, currPdi, currMdi, threshold, diGap, fastEma[n - 1], slowEma[n - 1], c);
  }

  method DecideTrendStrength(currAdx: Option<real>, prevAdx: Option<real>, currPdi: Option<real>, currMdi: Option<real>,
                             threshold: real, diGap: real, currFast: Option<real>, currSlow: Option<real>, c: Common)
    returns (s: Signal)
    ensures s == Decide(TrendFrom(TrendEntries(currAdx, prevAdx, currPdi, currMdi, currFast, currSlow), threshold, diGap, c),
                        TREND_SCALE)
  {
    if currAdx.None? || currPdi.None? || currMdi.None? {
      return HOLD;
    }
    var trendStrong := currAdx.value >= threshold;
    var adxRising := prevAdx.Some? && currAdx.value > prevAdx.value;
    s := DecideTrend(trendStrong, adxRising, currPdi.value, currMdi.value, diGap, currFast, currSlow, c);
  }

  method EvaluateLeaf(leaf: Leaf, m: Market) returns (s: Signal)
    requires leaf.Evaluable(m)
    ensures s == LeafSignal(leaf, m)
  {
    match leaf {
      case SmaCrossover(short, long) => s := SmaCrossover(m, short, long);
      case EmaCrossover(fast, slow) => s := EmaCrossover(m, fast, slow);
      case Macd(fast, slow, signal) => s := MacdStrategy(m, fast, slow, signal);
      case Supertrend(atrPeriod, multiplier) => s := SupertrendStrategy(m, atrPeriod, multiplier);
      case AtrBreakout(period, breakout) => s := AtrBreakoutStrategy(m, period, breakout);
      case MomentumBreakout(lookback, volMult) => s := MomentumBreakout(m, lookback, volMult);
      case TrendStrengthAdx(threshold, diGap, fastEma, slowEma) =>
        s := TrendStrengthStrategy(m, threshold, diGap, fastEma, slowEma);
      case OtherType(decide) => s := decide(m);
      case UnknownType => s := HOLD;
    }
  }

  method CompositeStrategy(rules: seq<Rule>, anyMode: bool, m: Market) returns (s: Signal)
    requires Composite(rules, anyMode).Evaluable(m)
    ensures s == Combine(SubSignals(rules, m), anyMode)
  {
    var subSignals := [];
    for i := 0 to |rules|
      invariant subSignals == SubSignals(rules[..i], m)
    {
      assert rules[..i + 1][..i] == rules[..i];
      if rules[i].Rule? {
        var sig := EvaluateLeaf(rules[i].leaf, m);
        subSignals := subSignals + [sig];
      }
    }
    assert rules[..|rules|] == rules;
    s := Combine(subSignals, anyMode);
  }

  method Evaluate(strategy: Strategy, m: Market) returns (s: Signal)
    requires strategy.Evaluable(m)
    ensures s == StrategySignal(strategy, m)
  {
    match strategy {
      case Single(leaf) => s := EvaluateLeaf(leaf, m);
      case Composite(rules, anyMode) => s := CompositeStrategy(rules, anyMode, m);
    }
  }
}
