/**
 * Long/short duality: on the mirror image of a market a strategy trades the other way, with the
 * same confidence. Mirroring replaces every price p by level - p, so highs and lows change places.
 * The level is an even number of ten-thousandths, so that rounding commutes with mirroring.
 */
module SignalDuality {
  import opened Prelude
  import opened Rounding
  import opened IndicatorSpec
  import opened SignalSpec
  import opened MovingAverageLaws
  import opened RsiLaws
  import opened AdxLaws

  function MirrorPrices(xs: seq<real>, level: real): (ys: seq<real>)
    ensures Mirror(xs, ys, level)
  {
    seq(|xs|, i requires 0 <= i < |xs| => level - xs[i])
  }

  function MirrorMarket(m: Market, level: real): Market {
    Market(MirrorPrices(m.closes, level), MirrorPrices(m.lows, level), MirrorPrices(m.highs, level), m.volumes)
  }

  function Flip(s: Signal): Signal {
    match s.action
    case Buy => Signal(Sell, s.confidence)
    case Sell => Signal(Buy, s.confidence)
    case Hold => s
  }

  // ---------- From setups to signals ----------

  function Swapped(s: Setup): Setup {
    match s
    case NoData => NoData
    case Setup(up, upVotes, down, downVotes) => Setup(down, downVotes, up, upVotes)
  }

  /** Both branches of a strategy are ready to fire; the source then always buys. */
  predicate BothFire(s: Setup, scale: Scale) {
    s.Setup? && s.up && s.upVotes >= scale.quorum && s.down && s.downVotes >= scale.quorum
  }

  /** Exchanging the two setups flips the signal exactly when they do not fire together. */
  lemma DecisionFlips(s: Setup, scale: Scale)
    ensures Decide(Swapped(s), scale) == Flip(Decide(s, scale)) <==> !BothFire(s, scale)
  {
  }

  // ---------- Common indicators in the mirror ----------

  /** The common indicators of a mirrored market, as a value. */
  function MirrorCommon(c: Common, level: real): Common {
    Common(Mirrored(c.rsi, 100.0), Mirrored(c.macdHist, 0.0), c.volRatio, Mirrored(c.ema20, level),
           Mirrored(c.ema50, level))
  }

  lemma CommonMirrors(m: Market, level: real)
    requires m.closes != [] && IsEvenTick(level)
    ensures CommonOf(MirrorMarket(m, level).closes, m.volumes) == MirrorCommon(CommonOf(m.closes, m.volumes), level)
  {
    RsiNowMirrors(m.closes, level);
    MacdMirrors(m.closes, MirrorPrices(m.closes, level), 12, 26, 9, |m.closes| - 1, level);
    EmaAtMirrors(m.closes, level, 20, |m.closes| - 1);
    EmaAtMirrors(m.closes, level, 50, |m.closes| - 1);
  }

  lemma RsiNowMirrors(closes: seq<real>, level: real)
    requires closes != []
    ensures RsiAt(MirrorPrices(closes, level), 14, |closes| - 1) == Mirrored(RsiAt(closes, 14, |closes| - 1), 100.0)
  {
    if |closes| > 14 {
      RsiReflects(closes, MirrorPrices(closes, level), 14, |closes| - 1, level);
    }
  }

  lemma EmaAtMirrors(closes: seq<real>, level: real, period: nat, i: nat)
    requires 1 <= period && i < |closes| && IsEvenTick(level)
    ensures EmaAt(MirrorPrices(closes, level), period, i) == Mirrored(EmaAt(closes, period, i), level)
  {
    if period <= i + 1 {
      EmaMirrors(closes, MirrorPrices(closes, level), period, i, level);
    }
  }

  // ---------- Setups of plain values in the mirror ----------

  lemma SmaCrossMirrors(a: real, b: real, x: real, y: real, c: Common, level: real)
    ensures SmaCross(level - a, level - b, level - x, level - y, MirrorCommon(c, level))
      == Swapped(SmaCross(a, b, x, y, c))
  {
  }

  lemma EmaCrossMirrors(a: real, b: real, x: real, y: real, c: Common, level: real)
    ensures EmaCross(level - a, level - b, level - x, level - y, MirrorCommon(c, level))
      == Swapped(EmaCross(a, b, x, y, c))
  {
  }

  lemma MacdCrossMirrors(a: real, b: real, x: real, y: real, hist: Option<real>, growing: bool, c: Common, level: real)
    ensures MacdCross(0.0 - a, 0.0 - b, 0.0 - x, 0.0 - y, Mirrored(hist, 0.0), growing, MirrorCommon(c, level))
      == Swapped(MacdCross(a, b, x, y, hist, growing, c))
  {
  }

  predicate ChannelMirrored(a: ChannelBar, b: ChannelBar, level: real) {
    b.price == level - a.price && b.mid == level - a.mid && b.band == a.band
  }

  lemma ChannelsMirror(prev: ChannelBar, curr: ChannelBar, prevMirrored: ChannelBar, currMirrored: ChannelBar,
                       c: Common, level: real)
    requires ChannelMirrored(prev, prevMirrored, level) && ChannelMirrored(curr, currMirrored, level)
    ensures ChannelsSetup(prevMirrored, currMirrored, MirrorCommon(c, level)) == Swapped(ChannelsSetup(prev, curr, c))
  {
  }

  lemma TrendMirrors(strong: bool, rising: bool, pdi: real, mdi: real, diGap: real, fast: Option<real>,
                     slow: Option<real>, c: Common, level: real)
    requires Truthy(fast) && Truthy(slow) <==> Truthy(Mirrored(fast, level)) && Truthy(Mirrored(slow, level))
    ensures TrendSetup(strong, rising, mdi, pdi, diGap, Mirrored(fast, level), Mirrored(slow, level),
                       MirrorCommon(c, level))
      == Swapped(TrendSetup(strong, rising, pdi, mdi, diGap, fast, slow, c))
  {
  }

  /** The entries of the mirrored market: the directional indicators change places. */
  function MirrorTrend(e: TrendEntries, level: real): TrendEntries {
    TrendEntries(e.adx, e.prevAdx, e.mdi, e.pdi, Mirrored(e.fast, level), Mirrored(e.slow, level))
  }

  lemma TrendFromMirrors(e: TrendEntries, threshold: real, diGap: real, c: Common, level: real)
    requires Truthy(e.fast) && Truthy(e.slow) <==> Truthy(Mirrored(e.fast, level)) && Truthy(Mirrored(e.slow, level))
    ensures TrendFrom(MirrorTrend(e, level), threshold, diGap, MirrorCommon(c, level))
         == Swapped(TrendFrom(e, threshold, diGap, c))
    ensures !BothFire(TrendFrom(e, threshold, diGap, c), TREND_SCALE)
  {
    if e.adx.Some? && e.pdi.Some? && e.mdi.Some? {
      TrendMirrors(e.adx.value >= threshold, e.prevAdx.Some? && e.adx.value > e.prevAdx.value, e.pdi.value, e.mdi.value,
                   diGap, e.fast, e.slow, c, level);
    }
  }

  /** Only an RSI at the end of its scale sees the difference between 0.0 and a missing value. */
  predicate RsiIs(c: Common, value: real) {
    c.rsi == Some(value)
  }

  /** An RSI confirms ATR_BREAKOUT on one side of the mirror only at the ends of its scale. */
  lemma TriggerMirrors(prev: real, curr: real, upper: real, lower: real, c: Common, level: real)
    ensures var mirrored := TriggerSetup(level - prev, level - curr, level - lower, level - upper, MirrorCommon(c, level));
      var setup := TriggerSetup(prev, curr, upper, lower, c);
      && mirrored.up == setup.down && mirrored.down == setup.up
      && setup.downVotes == mirrored.upVotes + One(RsiIs(c, 100.0))
      && mirrored.downVotes == setup.upVotes + One(RsiIs(c, 0.0))
  {
  }

  lemma BreakoutMirrors(prev: real, curr: real, high: real, low: real, volMult: real, c: Common, level: real)
    ensures var mirrored := BreakoutSetup(level - prev, level - curr, level - low, level - high, volMult, MirrorCommon(c, level));
      var setup := BreakoutSetup(prev, curr, high, low, volMult, c);
      && mirrored.up == setup.down && mirrored.down == setup.up
      && mirrored.upVotes == setup.downVotes + One(RsiIs(c, 0.0))
      && setup.upVotes == mirrored.downVotes + One(RsiIs(c, 100.0))
  {
  }

  // ---------- The strategies ----------

  lemma SmaDuality(m: Market, level: real, short: nat, long: nat)
    requires 1 <= short && 1 <= long && IsEvenTick(level)
    ensures SmaSetup(MirrorMarket(m, level), short, long) == Swapped(SmaSetup(m, short, long))
    ensures !BothFire(SmaSetup(m, short, long), SMA_SCALE)
  {
    var n := |m.closes|;
    if !(n < long + 2 || n < 55 || n - 1 < short) {
      var w := MirrorMarket(m, level).closes;
      SmaMirrors(m.closes, w, short, n - 2, level);
      SmaMirrors(m.closes, w, long, n - 2, level);
      SmaMirrors(m.closes, w, short, n - 1, level);
      SmaMirrors(m.closes, w, long, n - 1, level);
      CommonMirrors(m, level);
      SmaCrossMirrors(SmaAt(m.closes, short, n - 2).value, SmaAt(m.closes, long, n - 2).value,
                      SmaAt(m.closes, short, n - 1).value, SmaAt(m.closes, long, n - 1).value,
                      CommonOf(m.closes, m.volumes), level);
    }
  }

  lemma EmaDuality(m: Market, level: real, fast: nat, slow: nat)
    requires 1 <= fast && 1 <= slow && IsEvenTick(level)
    ensures EmaSetup(MirrorMarket(m, level), fast, slow) == Swapped(EmaSetup(m, fast, slow))
    ensures !BothFire(EmaSetup(m, fast, slow), EMA_SCALE)
  {
    var n := |m.closes|;
    if !(n < slow + 2 || n < 55 || n - 1 < fast) {
      var w := MirrorMarket(m, level).closes;
      EmaMirrors(m.closes, w, fast, n - 2, level);
      EmaMirrors(m.closes, w, slow, n - 2, level);
      EmaMirrors(m.closes, w, fast, n - 1, level);
      EmaMirrors(m.closes, w, slow, n - 1, level);
      CommonMirrors(m, level);
      EmaCrossMirrors(EmaValue(m.closes, fast, n - 2), EmaValue(m.closes, slow, n - 2),
                      EmaValue(m.closes, fast, n - 1), EmaValue(m.closes, slow, n - 1),
                      CommonOf(m.closes, m.volumes), level);
    }
  }

  lemma GrowthMirrors(hist: Option<real>, prevHist: Option<real>)
    ensures Growing(Mirrored(hist, 0.0), Mirrored(prevHist, 0.0)) == Growing(hist, prevHist)
  {
  }

  function MirrorEntries(e: MacdEntries): MacdEntries {
    MacdEntries(Mirrored(e.prevMacd, 0.0), Mirrored(e.prevSignal, 0.0), Mirrored(e.currMacd, 0.0),
                Mirrored(e.currSignal, 0.0), Mirrored(e.hist, 0.0), Mirrored(e.prevHist, 0.0))
  }

  lemma MacdFromMirrors(e: MacdEntries, c: Common, level: real)
    ensures MacdFrom(MirrorEntries(e), MirrorCommon(c, level)) == Swapped(MacdFrom(e, c))
    ensures !BothFire(MacdFrom(e, c), MACD_SCALE)
  {
    GrowthMirrors(e.hist, e.prevHist);
    if e.prevMacd.Some? && e.prevSignal.Some? && e.currMacd.Some? && e.currSignal.Some? {
      MacdCrossMirrors(e.prevMacd.value, e.prevSignal.value, e.currMacd.value, e.currSignal.value, e.hist,
                       Growing(e.hist, e.prevHist), c, level);
    }
  }

  lemma EntriesMirror(xs: seq<real>, ys: seq<real>, level: real, fast: nat, slow: nat, signal: nat)
    requires 1 <= fast && 1 <= slow && 1 <= signal && |xs| >= 2 && Mirror(xs, ys, level) && IsEvenTick(level)
    ensures EntriesOf(ys, fast, slow, signal) == MirrorEntries(EntriesOf(xs, fast, slow, signal))
  {
    MacdMirrors(xs, ys, fast, slow, signal, |xs| - 2, level);
    MacdMirrors(xs, ys, fast, slow, signal, |xs| - 1, level);
  }

  lemma MacdDuality(m: Market, level: real, fast: nat, slow: nat, signal: nat)
    requires 1 <= fast && 1 <= slow && 1 <= signal && IsEvenTick(level)
    ensures MacdSetup(MirrorMarket(m, level), fast, slow, signal) == Swapped(MacdSetup(m, fast, slow, signal))
    ensures !BothFire(MacdSetup(m, fast, slow, signal), MACD_SCALE)
  {
    if |m.closes| >= slow + signal {
      EntriesMirror(m.closes, MirrorPrices(m.closes, level), level, fast, slow, signal);
      CommonMirrors(m, level);
      MacdFromMirrors(EntriesOf(m.closes, fast, slow, signal), CommonOf(m.closes, m.volumes), level);
    }
  }

  lemma BarsMirrorMarket(m: Market, level: real)
    ensures BarsMirror(m.Bars(), MirrorMarket(m, level).Bars(), level)
    ensures MirrorMarket(m, level).HasOhlc() <==> m.HasOhlc()
  {
  }

  lemma SupertrendDuality(m: Market, level: real, atrPeriod: nat, multiplier: real)
    requires 1 <= atrPeriod && IsEvenTick(level)
    ensures SupertrendSetup(MirrorMarket(m, level), atrPeriod, multiplier) == Swapped(SupertrendSetup(m, atrPeriod, multiplier))
  {
    var n := |m.closes|;
    BarsMirrorMarket(m, level);
    if m.HasOhlc() && !(n < atrPeriod + 3 || n < 55) {
      var w := MirrorMarket(m, level);
      CommonMirrors(m, level);
      ChannelAtMirrors(m, w, level, atrPeriod, multiplier, n - 2);
      ChannelAtMirrors(m, w, level, atrPeriod, multiplier, n - 1);
      ChannelsMirror(ChannelAt(m, atrPeriod, multiplier, n - 2), ChannelAt(m, atrPeriod, multiplier, n - 1),
                     ChannelAt(w, atrPeriod, multiplier, n - 2), ChannelAt(w, atrPeriod, multiplier, n - 1),
                     CommonOf(m.closes, m.volumes), level);
    }
  }

  lemma ChannelAtMirrors(m: Market, w: Market, level: real, atrPeriod: nat, multiplier: real, i: nat)
    requires 1 <= atrPeriod <= i < |m.closes| && m.HasOhlc() && w.HasOhlc() && BarsMirror(m.Bars(), w.Bars(), level)
    ensures ChannelMirrored(ChannelAt(m, atrPeriod, multiplier, i), ChannelAt(w, atrPeriod, multiplier, i), level)
  {
    AtrMirrors(m.Bars(), w.Bars(), level, atrPeriod, i);
  }

  /** ATR is an average of true ranges that do not include the first bar's, so it is never negative. */
  lemma AtrNonNegative(bars: Bars, period: nat, i: nat)
    requires bars.SameLength() && 1 <= period <= i < |bars.closes|
    ensures AtrAt(bars, period, i).Some? && AtrAt(bars, period, i).value >= 0.0
  {
    var window := AtrRanges(bars)[i + 1 - period..i + 1];
    forall j | 0 <= j < |window| ensures window[j] >= 0.0 {
      assert window[j] == Round4(TrueRange(bars, i + 1 - period + j));
      RoundedNonNegative(TrueRange(bars, i + 1 - period + j));
    }
    SumPositive(window);
    DivSign(Sum(window), period as real);
    RoundedNonNegative(Mean(window));
  }

  lemma RoundedNonNegative(x: real)
    requires x >= 0.0
    ensures Round4(x) >= 0.0
  {
    Round4Monotone(0.0, x);
    Round4OfTick(0.0);
  }

  lemma BandSign(multiplier: real, atr: real)
    requires atr >= 0.0
    ensures multiplier <= 0.0 ==> Band(multiplier, atr) <= 0.0
    ensures multiplier > 0.0 && atr > 0.0 ==> Band(multiplier, atr) > 0.0
  {
  }

  /** The two channel re-entries can only coincide when the previous channel has no width. */
  lemma SupertrendBothFireOnlyWhenFlat(m: Market, atrPeriod: nat, multiplier: real)
    requires 1 <= atrPeriod
    ensures BothFire(SupertrendSetup(m, atrPeriod, multiplier), SUPERTREND_SCALE) ==>
      multiplier > 0.0 && AtrAt(m.Bars(), atrPeriod, |m.closes| - 2) == Some(0.0)
  {
    var n := |m.closes|;
    if BothFire(SupertrendSetup(m, atrPeriod, multiplier), SUPERTREND_SCALE) {
      AtrNonNegative(m.Bars(), atrPeriod, n - 2);
      AtrNonNegative(m.Bars(), atrPeriod, n - 1);
      BandSign(multiplier, AtrAt(m.Bars(), atrPeriod, n - 2).value);
      BandSign(multiplier, AtrAt(m.Bars(), atrPeriod, n - 1).value);
    }
  }

  lemma TrendStrengthDuality(m: Market, level: real, threshold: real, diGap: real, fastEma: nat, slowEma: nat)
    requires 1 <= fastEma && 1 <= slowEma
    requires |m.closes| >= 35 ==> m.Bars().Complete()
    requires PricesInside(m, level)
    ensures |m.closes| >= 35 ==> MirrorMarket(m, level).Bars().Complete()
    ensures TrendStrengthSetup(MirrorMarket(m, level), threshold, diGap, fastEma, slowEma)
      == Swapped(TrendStrengthSetup(m, threshold, diGap, fastEma, slowEma))
    ensures !BothFire(TrendStrengthSetup(m, threshold, diGap, fastEma, slowEma), TREND_SCALE)
  {
    if |m.closes| >= 35 {
      BarsMirrorMarket(m, level);
      TrendEntriesMirror(m, level, fastEma, slowEma);
      CommonMirrors(m, level);
      TrendFromMirrors(TrendEntriesOf(m, fastEma, slowEma), threshold, diGap, CommonOf(m.closes, m.volumes), level);
    }
  }

  lemma TrendEntriesMirror(m: Market, level: real, fastEma: nat, slowEma: nat)
    requires 1 <= fastEma && 1 <= slowEma && |m.closes| >= 2 && m.Bars().Complete() && PricesInside(m, level)
    ensures MirrorMarket(m, level).Bars().Complete()
    ensures var e := TrendEntriesOf(m, fastEma, slowEma);
      && TrendEntriesOf(MirrorMarket(m, level), fastEma, slowEma) == MirrorTrend(e, level)
      && (Truthy(e.fast) && Truthy(e.slow) <==> Truthy(Mirrored(e.fast, level)) && Truthy(Mirrored(e.slow, level)))
  {
    var n, w := |m.closes|, MirrorMarket(m, level);
    BarsMirrorMarket(m, level);
    AdxMirrors(m.Bars(), w.Bars(), level, 14, n - 1);
    AdxMirrors(m.Bars(), w.Bars(), level, 14, n - 2);
    DiMirrors(m.Bars(), w.Bars(), level, 14, n - 1);
    EmaTruthMirrors(m, level, fastEma, n - 1);
    EmaTruthMirrors(m, level, slowEma, n - 1);
  }

  /** With prices a tick or more inside 0 and the mirror level no average is mistaken for a missing one. */
  lemma EmaTruthMirrors(m: Market, level: real, period: nat, i: nat)
    requires 1 <= period && i < |m.closes| && PricesInside(m, level)
    ensures var e := EmaAt(m.closes, period, i);
      && EmaAt(MirrorMarket(m, level).closes, period, i) == Mirrored(e, level)
      && (e.Some? ==> Truthy(e) && Truthy(Mirrored(e, level)))
  {
    EmaAtMirrors(m.closes, level, period, i);
    if period <= i + 1 {
      EmaPositive(m.closes, period, i);
      EmaPositive(MirrorMarket(m, level).closes, period, i);
    }
  }

  lemma RollingMirrors(xs: seq<real>, ys: seq<real>, level: real, period: nat, i: nat)
    requires 1 <= period && i < |xs| && Mirror(xs, ys, level)
    ensures RollingHighAt(ys, period, i) == Mirrored(RollingLowAt(xs, period, i), level)
    ensures RollingLowAt(ys, period, i) == Mirrored(RollingHighAt(xs, period, i), level)
  {
    if period <= i + 1 {
      MaxOfMirrors(xs[i + 1 - period..i + 1], ys[i + 1 - period..i + 1], level);
    }
  }

  lemma RangeMirrors(m: Market, w: Market, level: real, period: nat)
    requires 1 <= period && period + 1 <= |m.closes| == |w.closes| && m.HasOhlc() && w.HasOhlc()
    requires Mirror(m.highs, w.lows, level) && Mirror(m.lows, w.highs, level)
    ensures RangeHigh(w, period) == level - RangeLow(m, period)
    ensures RangeLow(w, period) == level - RangeHigh(m, period)
  {
    RollingMirrors(m.highs, w.lows, level, period, |m.closes| - 2);
    RollingMirrors(m.lows, w.highs, level, period, |m.closes| - 2);
  }

  predicate TriggerMirrored(a: Trigger, b: Trigger, level: real) {
    b.prev == level - a.prev && b.curr == level - a.curr && b.upper == level - a.lower && b.lower == level - a.upper
  }

  /** At the value level: the trigger flips unless an RSI at the end of its scale confirms the move. */
  lemma TriggerFlips(a: Trigger, b: Trigger, c: Common, level: real)
    requires TriggerMirrored(a, b, level)
    ensures var s, t := a.Setup(c), b.Setup(MirrorCommon(c, level));
      (Decide(t, ATR_BREAKOUT_SCALE) == Flip(Decide(s, ATR_BREAKOUT_SCALE)))
      == !((s.down && RsiIs(c, 100.0) && s.downVotes >= 2) || (s.up && RsiIs(c, 0.0) && s.upVotes >= 1))
  {
    TriggerMirrors(a.prev, a.curr, a.upper, a.lower, c, level);
    TriggerVoteShows(a.Setup(c).upVotes);
    TriggerVoteShows(a.Setup(c).downVotes);
  }

  /** One more confirmation always changes an ATR_BREAKOUT signal with at most three. */
  lemma TriggerVoteShows(votes: nat)
    requires votes <= 3
    ensures votes + 1 <= 3 ==> Confidence(ATR_BREAKOUT_SCALE, votes) < Confidence(ATR_BREAKOUT_SCALE, votes + 1)
    ensures votes >= 1 ==> Confidence(ATR_BREAKOUT_SCALE, votes - 1) < Confidence(ATR_BREAKOUT_SCALE, votes)
  {
  }

  /**
   * A breakout against the RSI, at the end of its scale, that has another confirmation. ATR_BREAKOUT
   * counts an RSI of 100 as confirming a fall but takes an RSI of 0.0 for a missing value.
   */
  predicate BreakoutAgainstRsi(m: Market, period: nat, breakout: real)
    requires 1 <= period
  {
    var s := AtrBreakoutSetup(m, period, breakout);
    && s.Setup?
    && m.closes != []
    && ((s.down && RsiIs(CommonOf(m.closes, m.volumes), 100.0) && s.downVotes >= 2)
        || (s.up && RsiIs(CommonOf(m.closes, m.volumes), 0.0) && s.upVotes >= 1))
  }

  /** ATR_BREAKOUT is dual exactly on the markets that do not break out against the RSI. */
  lemma AtrBreakoutDualityExact(m: Market, level: real, period: nat, breakout: real)
    requires 1 <= period && IsEvenTick(level)
    ensures Decide(AtrBreakoutSetup(MirrorMarket(m, level), period, breakout), ATR_BREAKOUT_SCALE)
      == Flip(Decide(AtrBreakoutSetup(m, period, breakout), ATR_BREAKOUT_SCALE))
      <==> !BreakoutAgainstRsi(m, period, breakout)
  {
    BarsMirrorMarket(m, level);
    if m.HasOhlc() && |m.closes| >= period + 5 {
      AtrBreakoutFlips(m, level, period, breakout);
    }
  }

  lemma AtrBreakoutFlips(m: Market, level: real, period: nat, breakout: real)
    requires 1 <= period && IsEvenTick(level) && m.HasOhlc() && |m.closes| >= period + 5
    ensures (Decide(AtrBreakoutSetup(MirrorMarket(m, level), period, breakout), ATR_BREAKOUT_SCALE)
      == Flip(Decide(AtrBreakoutSetup(m, period, breakout), ATR_BREAKOUT_SCALE)))
      == !BreakoutAgainstRsi(m, period, breakout)
  {
    var w := MirrorMarket(m, level);
    BarsMirrorMarket(m, level);
    TriggerOfMirrors(m, w, level, period, breakout);
    CommonMirrors(m, level);
    TriggerFlips(TriggerOf(m, period, breakout), TriggerOf(w, period, breakout), CommonOf(m.closes, m.volumes), level);
  }

  lemma TriggerOfMirrors(m: Market, w: Market, level: real, period: nat, breakout: real)
    requires 1 <= period && period + 5 <= |m.closes| && m.HasOhlc() && w.HasOhlc()
    requires BarsMirror(m.Bars(), w.Bars(), level)
    ensures TriggerMirrored(TriggerOf(m, period, breakout), TriggerOf(w, period, breakout), level)
  {
    AtrBandMirrors(m, w, level, period, breakout);
    RangeMirrors(m, w, level, period);
    TriggersMirror(m.closes, w.closes, RangeHigh(m, period), RangeLow(m, period), AtrBand(m, period, breakout), level);
  }

  lemma AtrBandMirrors(m: Market, w: Market, level: real, period: nat, breakout: real)
    requires 1 <= period && period + 5 <= |m.closes| && m.HasOhlc() && w.HasOhlc()
    requires BarsMirror(m.Bars(), w.Bars(), level)
    ensures AtrBand(w, period, breakout) == AtrBand(m, period, breakout)
  {
    AtrMirrors(m.Bars(), w.Bars(), level, period, |m.closes| - 1);
  }

  lemma TriggersMirror(xs: seq<real>, ys: seq<real>, high: real, low: real, band: real, level: real)
    requires |xs| >= 2 && Mirror(xs, ys, level)
    ensures var n := |xs|;
      TriggerMirrored(Trigger(xs[n - 2], xs[n - 1], high + band, low - band),
                      Trigger(ys[n - 2], ys[n - 1], (level - low) + band, (level - high) - band), level)
  {
  }

  lemma BreakoutHighMirrors(m: Market, level: real, lookback: nat)
    requires 1 <= lookback
    ensures BreakoutLow(MirrorMarket(m, level), lookback) == Mirrored(BreakoutHigh(m, lookback), level)
  {
    if |m.highs| >= 2 {
      RollingMirrors(m.highs, MirrorPrices(m.highs, level), level, lookback, |m.highs| - 2);
    }
  }

  lemma BreakoutLowMirrors(m: Market, level: real, lookback: nat)
    requires 1 <= lookback
    ensures BreakoutHigh(MirrorMarket(m, level), lookback) == Mirrored(BreakoutLow(m, lookback), level)
  {
    if |m.lows| >= 2 {
      RollingMirrors(m.lows, MirrorPrices(m.lows, level), level, lookback, |m.lows| - 2);
    }
  }

  /** At the value level: the breakout flips unless the RSI end of the scale is in play. */
  lemma BreakoutDecisionFlips(prev: real, curr: real, high: real, low: real, volMult: real, c: Common, level: real)
    ensures var s := BreakoutSetup(prev, curr, high, low, volMult, c);
      var t := BreakoutSetup(level - prev, level - curr, level - low, level - high, volMult, MirrorCommon(c, level));
      (Decide(t, MOMENTUM_SCALE) == Flip(Decide(s, MOMENTUM_SCALE)))
      == !((s.up && RsiIs(c, 100.0)) || (s.down && RsiIs(c, 0.0)))
  {
    BreakoutMirrors(prev, curr, high, low, volMult, c, level);
    ExtraVoteShows(BreakoutSetup(prev, curr, high, low, volMult, c).upVotes);
    ExtraVoteShows(BreakoutSetup(prev, curr, high, low, volMult, c).downVotes);
  }

  /** One more confirmation always changes a MOMENTUM_BREAKOUT signal with at most three. */
  lemma ExtraVoteShows(votes: nat)
    requires votes <= 3
    ensures votes >= 1 ==> Confidence(MOMENTUM_SCALE, votes) > 0.55
    ensures votes + 1 <= 3 ==> Confidence(MOMENTUM_SCALE, votes) < Confidence(MOMENTUM_SCALE, votes + 1)
    ensures votes >= 1 ==> Confidence(MOMENTUM_SCALE, votes - 1) < Confidence(MOMENTUM_SCALE, votes)
  {
  }

  /**
   * A breakout that continues a one-way history. MOMENTUM_BREAKOUT counts an RSI of 100 as
   * confirming a rise but takes an RSI of 0.0 for a missing value.
   */
  predicate OneWayBreakout(m: Market, lookback: nat, volMult: real)
    requires 1 <= lookback
  {
    var s := MomentumSetup(m, lookback, volMult);
    && s.Setup?
    && m.closes != []
    && ((s.up && RsiIs(CommonOf(m.closes, m.volumes), 100.0)) || (s.down && RsiIs(CommonOf(m.closes, m.volumes), 0.0)))
  }

  /** MOMENTUM_BREAKOUT is dual exactly on the markets that are not one-way breakouts. */
  lemma MomentumDualityExact(m: Market, level: real, lookback: nat, volMult: real)
    requires 1 <= lookback && IsEvenTick(level)
    ensures Decide(MomentumSetup(MirrorMarket(m, level), lookback, volMult), MOMENTUM_SCALE)
      == Flip(Decide(MomentumSetup(m, lookback, volMult), MOMENTUM_SCALE))
      <==> !OneWayBreakout(m, lookback, volMult)
  {
    BreakoutHighMirrors(m, level, lookback);
    BreakoutLowMirrors(m, level, lookback);
    var high, low := BreakoutHigh(m, lookback), BreakoutLow(m, lookback);
    if |m.closes| >= lookback + 5 && high.Some? && low.Some? {
      MomentumFlips(m, level, lookback, volMult, high.value, low.value);
    }
  }

  lemma MomentumFlips(m: Market, level: real, lookback: nat, volMult: real, high: real, low: real)
    requires 1 <= lookback && IsEvenTick(level) && |m.closes| >= lookback + 5
    requires BreakoutHigh(m, lookback) == Some(high) && BreakoutLow(m, lookback) == Some(low)
    requires BreakoutHigh(MirrorMarket(m, level), lookback) == Some(level - low)
    requires BreakoutLow(MirrorMarket(m, level), lookback) == Some(level - high)
    ensures (Decide(MomentumSetup(MirrorMarket(m, level), lookback, volMult), MOMENTUM_SCALE)
      == Flip(Decide(MomentumSetup(m, lookback, volMult), MOMENTUM_SCALE)))
      == !OneWayBreakout(m, lookback, volMult)
  {
    var n, w := |m.closes|, MirrorMarket(m, level);
    var prev, curr, c := m.closes[n - 2], m.closes[n - 1], CommonOf(m.closes, m.volumes);
    assert MomentumSetup(m, lookback, volMult) == BreakoutSetup(prev, curr, high, low, volMult, c);
    assert MomentumSetup(w, lookback, volMult)
        == BreakoutSetup(level - prev, level - curr, level - low, level - high, volMult, MirrorCommon(c, level)) by {
      CommonMirrors(m, level);
    }
    BreakoutDecisionFlips(prev, curr, high, low, volMult, c, level);
  }

  /**
   * The condition above read off the closes: the last bar breaks out of a history whose average move
   * in that direction is at least 19999 times the average move against it.
   */
  lemma OneWayBreakoutExactly(m: Market, lookback: nat, volMult: real)
    requires 1 <= lookback && |m.closes| >= 15
    ensures OneWayBreakout(m, lookback, volMult) <==>
      var s, last := MomentumSetup(m, lookback, volMult), |m.closes| - 1;
      var gain, loss := AvgGain(m.closes, 14, last), AvgLoss(m.closes, 14, last);
      s.Setup? && ((s.up && gain >= OVERWHELMING * loss) || (s.down && loss >= OVERWHELMING * gain))
  {
    var last := |m.closes| - 1;
    RsiEnds(m.closes, 14, last);
    var s := MomentumSetup(m, lookback, volMult);
    if s.Setup? && s.up {
      assert RisesAt(m.closes, last);
    }
    if s.Setup? && s.down {
      assert FallsAt(m.closes, last);
    }
  }

  /** In particular every breakout that continues a history without a move against it. */
  lemma OneWayHistoryIsOneWay(m: Market, lookback: nat, volMult: real)
    requires 1 <= lookback && |m.closes| >= 15 && MomentumSetup(m, lookback, volMult).Setup?
    ensures var s, last := MomentumSetup(m, lookback, volMult), |m.closes| - 1;
      (s.up && !HasFall(m.closes, last)) || (s.down && !HasRise(m.closes, last)) ==> OneWayBreakout(m, lookback, volMult)
  {
    var last := |m.closes| - 1;
    OneWayBreakoutExactly(m, lookback, volMult);
    GainAverageSign(m.closes, 14, last);
    LossAverageSign(m.closes, 14, last);
  }

  // ---------- All strategies ----------

  /** Where a single strategy is dual. A strategy that is not modelled is where it happens to be. */
  predicate Dual(leaf: Leaf, m: Market, level: real)
    requires leaf.Evaluable(m)
  {
    match leaf
    case Supertrend(atrPeriod, multiplier) => !BothFire(SupertrendSetup(m, atrPeriod, multiplier), SUPERTREND_SCALE)
    case AtrBreakout(period, breakout) => !BreakoutAgainstRsi(m, period, breakout)
    case MomentumBreakout(lookback, volMult) => !OneWayBreakout(m, lookback, volMult)
    case OtherType(decide) => decide(MirrorMarket(m, level)) == Flip(decide(m))
    case _ => true
  }

  /** The level is an even number of ticks, and every close is a tick or more inside 0 and the level. */
  predicate PricesInside(m: Market, level: real) {
    IsEvenTick(level) && forall i :: 0 <= i < |m.closes| ==> TICK <= m.closes[i] <= level - TICK
  }

  /** Every strategy flips in the mirror exactly where `Dual` holds; for most of them that is everywhere. */
  lemma LeafDuality(leaf: Leaf, m: Market, level: real)
    requires leaf.Evaluable(m) && PricesInside(m, level)
    ensures leaf.Evaluable(MirrorMarket(m, level))
    ensures LeafSignal(leaf, MirrorMarket(m, level)) == Flip(LeafSignal(leaf, m)) <==> Dual(leaf, m, level)
  {
    match leaf {
      case SmaCrossover(short, long) => SmaDuality(m, level, short, long);
      case EmaCrossover(fast, slow) => EmaDuality(m, level, fast, slow);
      case Macd(fast, slow, signal) => MacdDuality(m, level, fast, slow, signal);
      case Supertrend(atrPeriod, multiplier) => SupertrendDuality(m, level, atrPeriod, multiplier);
      case AtrBreakout(period, breakout) => AtrBreakoutDualityExact(m, level, period, breakout);
      case MomentumBreakout(lookback, volMult) => MomentumDualityExact(m, level, lookback, volMult);
      case TrendStrengthAdx(threshold, diGap, fastEma, slowEma) =>
        TrendStrengthDuality(m, level, threshold, diGap, fastEma, slowEma);
      case OtherType(_) =>
      case UnknownType =>
    }
    if !leaf.OtherType? {
      DecisionFlips(SetupOf(leaf, m), ScaleOf(leaf));
    }
  }

  function FlipAll(signals: seq<Signal>): seq<Signal> {
    seq(|signals|, i requires 0 <= i < |signals| => Flip(signals[i]))
  }

  lemma {:induction false} BackingFlips(signals: seq<Signal>)
    ensures Backing(FlipAll(signals), Buy) == Backing(signals, Sell)
    ensures Backing(FlipAll(signals), Sell) == Backing(signals, Buy)
  {
    if signals != [] {
      BackingFlips(signals[..|signals| - 1]);
      assert FlipAll(signals)[..|signals| - 1] == FlipAll(signals[..|signals| - 1]);
    }
  }

  lemma {:induction false} BackingSplits(signals: seq<Signal>)
    ensures |Backing(signals, Buy)| + |Backing(signals, Sell)| <= |signals|
  {
    if signals != [] {
      BackingSplits(signals[..|signals| - 1]);
    }
  }

  /** Neither way of combining signals prefers a side. */
  lemma CombineFlips(signals: seq<Signal>, anyMode: bool)
    ensures Combine(FlipAll(signals), anyMode) == Flip(Combine(signals, anyMode))
  {
    BackingFlips(signals);
    BackingSplits(signals);
  }

  /** Every rule of a strategy is dual on this market. */
  predicate StrategyDual(s: Strategy, m: Market, level: real)
    requires s.Evaluable(m)
  {
    match s
    case Single(leaf) => Dual(leaf, m, level)
    case Composite(rules, _) => forall i :: 0 <= i < |rules| && rules[i].Rule? ==> Dual(rules[i].leaf, m, level)
  }

  lemma {:induction false} SubSignalsFlip(rules: seq<Rule>, m: Market, level: real)
    requires forall i :: 0 <= i < |rules| && rules[i].Rule? ==> rules[i].leaf.Evaluable(m)
    requires forall i :: 0 <= i < |rules| && rules[i].Rule? ==> Dual(rules[i].leaf, m, level)
    requires PricesInside(m, level)
    ensures forall i :: 0 <= i < |rules| && rules[i].Rule? ==> rules[i].leaf.Evaluable(MirrorMarket(m, level))
    ensures SubSignals(rules, MirrorMarket(m, level)) == FlipAll(SubSignals(rules, m))
  {
    if rules != [] {
      var front := rules[..|rules| - 1];
      SubSignalsFlip(front, m, level);
      assert forall i :: 0 <= i < |front| ==> rules[i] == front[i];
      if rules[|rules| - 1].Rule? {
        LeafDuality(rules[|rules| - 1].leaf, m, level);
      }
    }
  }

  /**
   * Long/short duality. On closes a tick or more inside 0 and the mirror level, every strategy whose
   * rules are dual, composites included, trades the mirrored market the other way with the same
   * confidence. A composite may still flip when a rule that is not dual does not decide its outcome.
   */
  lemma LongShortDuality(s: Strategy, m: Market, level: real)
    requires s.Evaluable(m) && PricesInside(m, level) && StrategyDual(s, m, level)
    ensures s.Evaluable(MirrorMarket(m, level))
    ensures StrategySignal(s, MirrorMarket(m, level)) == Flip(StrategySignal(s, m))
  {
    match s {
      case Single(leaf) => LeafDuality(leaf, m, level);
      case Composite(rules, anyMode) =>
        SubSignalsFlip(rules, m, level);
        CombineFlips(SubSignals(rules, m), anyMode);
    }
  }

  // ---------- A market on which SUPERTREND is not dual ----------

  /** 55 bars at 100 without range, then one bar from 98 to 102 that closes at 100. */
  const WIDE_AFTER_FLAT := Market(
    seq(56, i => 100.0),
    seq(56, i => if i == 55 then 102.0 else 100.0),
    seq(56, i => if i == 55 then 98.0 else 100.0),
    [])

  lemma {:induction false} ConstantPrices(xs: seq<real>, price: real, period: nat, i: nat)
    requires 2 <= period <= i < |xs| && IsTick(price)
    requires forall j :: 0 <= j < |xs| ==> xs[j] == price
    ensures EmaValue(xs, period, i) == price
    ensures RsiAt(xs, period, i) == Some(50.0)
  {
    EmaWithinPrices(xs, period, i, price, price);
    GainAverageSign(xs, period, i);
    LossAverageSign(xs, period, i);
  }

  lemma WideBarRanges()
    ensures AtrAt(WIDE_AFTER_FLAT.Bars(), 10, 54) == Some(0.0)
    ensures AtrAt(WIDE_AFTER_FLAT.Bars(), 10, 55) == Some(0.4)
  {
    var bars := WIDE_AFTER_FLAT.Bars();
    var ranges := AtrRanges(bars);
    Round4OfTick(0.0);
    Round4OfTick(4.0);
    Round4OfTick(0.4);
    var before, at := ranges[45..55], ranges[46..56];
    assert forall j :: 0 <= j < 10 ==> before[j] == 0.0;
    SumSpike(before, 0, 0.0);
    assert at[9] == 4.0 && forall j :: 0 <= j < 9 ==> at[j] == 0.0;
    SumSpike(at, 9, 4.0);
  }

  /** The sum of a list with one value that is not zero. */
  lemma {:induction false} SumSpike(xs: seq<real>, k: nat, v: real)
    requires k < |xs| && xs[k] == v && forall j :: 0 <= j < |xs| && j != k ==> xs[j] == 0.0
    ensures Sum(xs) == v
    decreases |xs|
  {
    var n := |xs| - 1;
    if k < n {
      SumSpike(xs[..n], k, v);
    } else {
      SumZero(xs[..n]);
    }
  }

  lemma {:induction false} SumZero(xs: seq<real>)
    requires forall j :: 0 <= j < |xs| ==> xs[j] == 0.0
    ensures Sum(xs) == 0.0
  {
    if xs != [] {
      SumZero(xs[..|xs| - 1]);
    }
  }

  /**
   * The market is its own mirror image, yet the strategy buys: both channel re-entries fire, and
   * the buying branch is tested first.
   */
  lemma SupertrendNotDual()
    ensures PricesInside(WIDE_AFTER_FLAT, 200.0)
    ensures MirrorMarket(WIDE_AFTER_FLAT, 200.0) == WIDE_AFTER_FLAT
    ensures LeafSignal(Supertrend(10, 3.0), WIDE_AFTER_FLAT).action == Buy
  {
    var m := WIDE_AFTER_FLAT;
    WideBarRanges();
    assert PricesInside(m, 200.0);
    ConstantPrices(m.closes, 100.0, 14, 55);
    ConstantPrices(m.closes, 100.0, 20, 55);
    ConstantPrices(m.closes, 100.0, 50, 55);
    var c := CommonOf(m.closes, m.volumes);
    assert c.rsi == Some(50.0) && c.ema20 == Some(100.0) && c.ema50 == Some(100.0);
    assert SupertrendSetup(m, 10, 3.0) == ChannelSetup(100.0, 100.0, 100.0, 100.0, Band(3.0, 0.0), Band(3.0, 0.4), c);
  }

  // ---------- Markets on which the breakout strategies are not dual ----------

  /** 24 bars at 100 and a last one at 101. */
  const STEP_UP := Market(
    seq(25, i => if i == 24 then 101.0 else 100.0),
    seq(25, i => if i == 24 then 101.0 else 100.0),
    seq(25, i => if i == 24 then 101.0 else 100.0),
    [])

  /** MOMENTUM_BREAKOUT buys a step up on its RSI of 100, but does not sell the step down. */
  lemma MomentumNotDual()
    ensures PricesInside(STEP_UP, 200.0)
    ensures LeafSignal(MomentumBreakout(20, 1.5), STEP_UP).action == Buy
    ensures !Dual(MomentumBreakout(20, 1.5), STEP_UP, 200.0)
  {
    var m := STEP_UP;
    StepUpRsi(m.closes);
    StepUpLevels(m.highs);
    var c := CommonOf(m.closes, m.volumes);
    assert RsiIs(c, 100.0);
    assert MomentumSetup(m, 20, 1.5) == BreakoutSetup(100.0, 101.0, 100.0, 100.0, 1.5, c);
  }

  lemma StepUpRsi(closes: seq<real>)
    requires |closes| == 25 && closes[24] == 101.0 && forall j :: 0 <= j < 24 ==> closes[j] == 100.0
    ensures RsiAt(closes, 14, 24) == Some(100.0)
  {
    assert RisesAt(closes, 24);
    assert forall j :: 1 <= j <= 24 ==> !FallsAt(closes, j);
    RsiEnds(closes, 14, 24);
  }

  lemma StepUpLevels(prices: seq<real>)
    requires |prices| == 25 && forall j :: 0 <= j < 24 ==> prices[j] == 100.0
    ensures RollingHighAt(prices, 20, 23) == Some(100.0) && RollingLowAt(prices, 20, 23) == Some(100.0)
  {
    MaxOfIsLargest(prices[4..24]);
  }

  /** A bar at 1000, 13 at 2000, and a last one slightly lower, on twenty times the average volume. */
  const DIP_AFTER_RISE := Market(
    seq(15, i => if i == 0 then 1000.0 else if i == 14 then 1999.98 else 2000.0),
    seq(15, i => if i == 0 then 1000.0 else if i == 14 then 1999.98 else 2000.0),
    seq(15, i => if i == 0 then 1000.0 else if i == 14 then 1999.98 else 2000.0),
    seq(20, i => if i == 19 then 20 else 0))

  lemma DipRsi()
    ensures RsiAt(DIP_AFTER_RISE.closes, 14, 14) == Some(100.0)
  {
    var closes := DIP_AFTER_RISE.closes;
    DipAverages(closes);
    assert RisesAt(closes, 1);
    RsiEnds(closes, 14, 14);
  }

  lemma DipAverages(closes: seq<real>)
    requires |closes| == 15 && closes[0] == 1000.0 && closes[14] == 1999.98
    requires forall j :: 1 <= j < 14 ==> closes[j] == 2000.0
    ensures AvgGain(closes, 14, 14) == 1000.0 / 14.0 && AvgLoss(closes, 14, 14) == 0.02 / 14.0
  {
    var gains, losses := Gains(closes), Losses(closes);
    assert gains[..14] == gains && losses[..14] == losses;
    assert gains[0] == 1000.0 && forall j :: 0 <= j < 14 && j != 0 ==> gains[j] == 0.0;
    SumSpike(gains, 0, 1000.0);
    assert losses[13] == 0.02 && forall j :: 0 <= j < 14 && j != 13 ==> losses[j] == 0.0;
    SumSpike(losses, 13, 0.02);
  }

  lemma DipVolume()
    ensures VolRatio(DIP_AFTER_RISE.volumes) == Some(20.0)
  {
    var volumes := DIP_AFTER_RISE.volumes;
    assert volumes[20 - 20..] == volumes;
    SumIntZero(volumes[..19]);
    Round2OfInt(20);
  }

  lemma {:induction false} SumIntZero(xs: seq<int>)
    requires forall j :: 0 <= j < |xs| ==> xs[j] == 0
    ensures SumInt(xs) == 0
  {
    if xs != [] {
      SumIntZero(xs[..|xs| - 1]);
    }
  }

  /** ATR is at most the one true range that is not zero. */
  lemma DipAtr()
    ensures var atr := AtrAt(DIP_AFTER_RISE.Bars(), 10, 14);
      atr.Some? && 0.0 <= atr.value <= 0.02
  {
    var window := AtrRanges(DIP_AFTER_RISE.Bars())[5..15];
    Round4OfTick(0.0);
    Round4OfTick(0.02);
    assert forall j :: 0 <= j < 10 ==> 0.0 <= window[j] <= 0.02;
    MeanWithin(window, 0.0, 0.02);
    Round4Within(Mean(window), 0.0, 0.02);
  }

  /** ATR_BREAKOUT sells the dip on its volume and its RSI of 100, but does not buy the mirrored one. */
  lemma AtrBreakoutNotDual()
    ensures PricesInside(DIP_AFTER_RISE, 3000.0)
    ensures LeafSignal(AtrBreakout(10, 0.5), DIP_AFTER_RISE).action == Sell
    ensures !Dual(AtrBreakout(10, 0.5), DIP_AFTER_RISE, 3000.0)
  {
    DipRsi();
    DipVolume();
    DipAtr();
    DipRange(DIP_AFTER_RISE.highs);
    DipSells(DIP_AFTER_RISE);
  }

  lemma DipSells(m: Market)
    requires m.HasOhlc() && |m.closes| == 15 && m.closes[13] == 2000.0 && m.closes[14] == 1999.98
    requires RsiAt(m.closes, 14, 14) == Some(100.0) && VolRatio(m.volumes) == Some(20.0)
    requires RollingHighAt(m.highs, 10, 13) == Some(2000.0) && RollingLowAt(m.lows, 10, 13) == Some(2000.0)
    requires var atr := AtrAt(m.Bars(), 10, 14);
      atr.Some? && 0.0 <= atr.value <= 0.02
    ensures Decide(AtrBreakoutSetup(m, 10, 0.5), ATR_BREAKOUT_SCALE).action == Sell
    ensures BreakoutAgainstRsi(m, 10, 0.5)
  {
    var band, c := AtrBand(m, 10, 0.5), CommonOf(m.closes, m.volumes);
    assert AtrBreakoutSetup(m, 10, 0.5) == TriggerSetup(2000.0, 1999.98, 2000.0 + band, 2000.0 - band, c);
  }

  lemma DipRange(prices: seq<real>)
    requires |prices| == 15 && forall j :: 1 <= j < 14 ==> prices[j] == 2000.0
    ensures RollingHighAt(prices, 10, 13) == Some(2000.0) && RollingLowAt(prices, 10, 13) == Some(2000.0)
  {
    MaxOfIsLargest(prices[4..14]);
  }
}
