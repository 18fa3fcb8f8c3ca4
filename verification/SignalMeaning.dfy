/**
 * When each strategy of backend/engines/signals.py trades, read off the market: which line overtakes
 * which, which confirmations count, and how confident the signal is.
 */
module SignalMeaning {
  import opened Prelude
  import opened Rounding
  import opened IndicatorSpec
  import opened MovingAverageLaws
  import opened RsiLaws
  import opened IndicatorMeaning
  import opened SignalSpec
  import opened SignalDuality

  /**
   * The strategy buys on the one condition and sells on the other, buying first, each with its own
   * confidence; on neither it holds.
   */
  predicate Trades(s: Signal, buys: bool, buyConfidence: real, sells: bool, sellConfidence: real) {
    && (s.action == Buy <==> buys)
    && (s.action == Sell <==> sells && !buys)
    && s.confidence == (if buys then buyConfidence else if sells then sellConfidence else 0.0)
  }

  // ---------- Confirmations ----------

  predicate RsiWithin(m: Market, lo: real, hi: real) {
    m.closes != [] && var rsi := RsiAt(m.closes, 14, |m.closes| - 1); rsi.Some? && lo <= rsi.value <= hi
  }

  predicate RsiAbove(m: Market, bound: real) {
    m.closes != [] && var rsi := RsiAt(m.closes, 14, |m.closes| - 1); rsi.Some? && rsi.value > bound
  }

  predicate RsiBelow(m: Market, bound: real) {
    m.closes != [] && var rsi := RsiAt(m.closes, 14, |m.closes| - 1); rsi.Some? && rsi.value < bound
  }

  /** MACD(12, 26) is above its 9-bar signal line; both are read only from 35 closes on. */
  predicate MacdAboveSignal(m: Market) {
    var n := |m.closes|;
    && n >= 35
    && SignalAt(m.closes, 12, 26, 9, n - 1).Some?
    && MacdAt(m.closes, 12, 26, n - 1).value > SignalAt(m.closes, 12, 26, 9, n - 1).value
  }

  predicate MacdBelowSignal(m: Market) {
    var n := |m.closes|;
    && n >= 35
    && SignalAt(m.closes, 12, 26, 9, n - 1).Some?
    && MacdAt(m.closes, 12, 26, n - 1).value < SignalAt(m.closes, 12, 26, 9, n - 1).value
  }

  /** Volume of the last twenty bars. */
  function RecentVolume(m: Market): int
    requires |m.volumes| >= 20
  {
    SumInt(m.volumes[|m.volumes| - 20..])
  }

  /** Twenty times the last volume is at least `times` the volume of the last twenty bars, rounding aside. */
  predicate VolumeReaches(m: Market, times: real) {
    && |m.volumes| >= 20 && RecentVolume(m) > 0
    && (20 * m.volumes[|m.volumes| - 1]) as real >= (times - 0.005) * RecentVolume(m) as real
  }

  /** The rounded volume ratio, when it is not zero, is at least `times`. */
  predicate VolumeSurges(m: Market, times: real) {
    && |m.volumes| >= 20 && RecentVolume(m) > 0
    && var ratio := Round2((20 * m.volumes[|m.volumes| - 1]) as real / RecentVolume(m) as real);
       ratio != 0.0 && ratio >= times
  }

  lemma RatioOf(last: int, total: int)
    requires total > 0
    ensures last as real / (total as real / 20.0) == (20 * last) as real / total as real
  {
    var average := total as real / 20.0;
    var q := last as real / average;
    assert q * average == last as real;
    assert q * total as real == (20 * last) as real;
    DivUnique((20 * last) as real, total as real, q);
  }

  lemma VolumeRatio(m: Market)
    ensures VolRatio(m.volumes).Some? <==>
      |m.volumes| >= 20 && RecentVolume(m) > 0 && m.volumes[|m.volumes| - 1] != 0
    ensures VolRatio(m.volumes).Some? ==>
      VolRatio(m.volumes).value == Round2((20 * m.volumes[|m.volumes| - 1]) as real / RecentVolume(m) as real)
  {
    if |m.volumes| >= 20 && RecentVolume(m) > 0 {
      RatioOf(m.volumes[|m.volumes| - 1], RecentVolume(m));
    }
  }

  /** A rounded ratio reaches an even number of hundredths half a hundredth early. */
  lemma RatioReaches(x: real, t: real, k: int)
    requires t > 0.0
    ensures Round2(x / t) >= (2 * k) as real / 100.0 <==> x >= ((2 * k) as real / 100.0 - 0.005) * t
  {
    NearestCompares(x / t * 100.0, k);
    QuotientCompares(x, t, (2 * k) as real / 100.0 - 0.005);
  }

  lemma VolumeVote(m: Market, k: int, times: real)
    requires k >= 1 && times == (2 * k) as real / 100.0
    ensures AtLeast(VolRatio(m.volumes), times) <==> VolumeReaches(m, times)
  {
    VolumeRatio(m);
    if |m.volumes| >= 20 && RecentVolume(m) > 0 {
      RatioVote(m.volumes[|m.volumes| - 1], RecentVolume(m), k, times);
    }
  }

  lemma RatioVote(last: int, total: int, k: int, times: real)
    requires total > 0 && k >= 1 && times == (2 * k) as real / 100.0
    ensures last != 0 && Round2((20 * last) as real / total as real) >= times
       <==> (20 * last) as real >= (times - 0.005) * total as real
  {
    RatioReaches((20 * last) as real, total as real, k);
    ThresholdPositive(times, total as real);
  }

  lemma ThresholdPositive(times: real, total: real)
    requires times >= 0.02 && total > 0.0
    ensures (times - 0.005) * total > 0.0
  {
    MulSign(times - 0.005, total);
  }

  lemma SurgeVote(m: Market, times: real)
    ensures Truthy(VolRatio(m.volumes)) && VolRatio(m.volumes).value >= times <==> VolumeSurges(m, times)
  {
    VolumeRatio(m);
    if |m.volumes| >= 20 && RecentVolume(m) > 0 && m.volumes[|m.volumes| - 1] == 0 {
      DivUnique(0.0, RecentVolume(m) as real, 0.0);
      Round2OfInt(0);
    }
  }

  lemma VolumeVotes(m: Market)
    ensures AtLeast(VolRatio(m.volumes), 1.0) <==> VolumeReaches(m, 1.0)
    ensures AtLeast(VolRatio(m.volumes), 1.1) <==> VolumeReaches(m, 1.1)
    ensures AtLeast(VolRatio(m.volumes), 1.2) <==> VolumeReaches(m, 1.2)
  {
    VolumeVote(m, 50, 1.0);
    VolumeVote(m, 55, 1.1);
    VolumeVote(m, 60, 1.2);
  }

  /** The sign of the histogram says which line is above. */
  lemma MacdVotes(m: Market)
    requires m.closes != []
    ensures Positive(CommonOf(m.closes, m.volumes).macdHist) <==> MacdAboveSignal(m)
    ensures Negative(CommonOf(m.closes, m.volumes).macdHist) <==> MacdBelowSignal(m)
  {
    HistogramIsDifference(m.closes, 12, 26, 9, |m.closes| - 1);
  }

  // ---------- From setups to trades ----------

  lemma SetupTrades(s: Setup, scale: Scale)
    requires s.Setup?
    ensures Trades(Decide(s, scale), s.up && s.upVotes >= scale.quorum, Confidence(scale, s.upVotes),
                   s.down && s.downVotes >= scale.quorum, Confidence(scale, s.downVotes))
  {
  }

  lemma Confidences(votes: nat)
    ensures votes <= 3 ==> Confidence(SMA_SCALE, votes) == Confidence(EMA_SCALE, votes) == 0.5 + 0.15 * votes as real
    ensures votes <= 4 ==> Confidence(MACD_SCALE, votes) == 0.45 + 0.12 * votes as real
    ensures votes <= 4 ==> Confidence(SUPERTREND_SCALE, votes) == 0.5 + 0.1 * votes as real
    ensures votes <= 3 ==> Confidence(ATR_BREAKOUT_SCALE, votes) == 0.55 + 0.1 * votes as real
    ensures Confidence(MOMENTUM_SCALE, votes) == Min(0.95, 0.55 + 0.15 * votes as real)
    ensures votes <= 5 ==> Confidence(TREND_SCALE, votes) == 0.6 + 0.07 * votes as real
  {
  }

  // ---------- Crossovers ----------

  /** Two lines, the first at most the second one bar ago and above it now. */
  predicate Overtakes(prevA: Option<real>, prevB: Option<real>, currA: Option<real>, currB: Option<real>) {
    && prevA.Some? && prevB.Some? && currA.Some? && currB.Some?
    && prevA.value <= prevB.value && currA.value > currB.value
  }

  /** The simple average over a bars overtakes that over b bars. */
  predicate SmaOvertakes(prices: seq<real>, a: nat, b: nat)
    requires 1 <= a && 1 <= b
  {
    var n := |prices|;
    n >= 2 && Overtakes(SmaAt(prices, a, n - 2), SmaAt(prices, b, n - 2), SmaAt(prices, a, n - 1), SmaAt(prices, b, n - 1))
  }

  predicate EmaOvertakes(prices: seq<real>, a: nat, b: nat)
    requires 1 <= a && 1 <= b
  {
    var n := |prices|;
    n >= 2 && Overtakes(EmaAt(prices, a, n - 2), EmaAt(prices, b, n - 2), EmaAt(prices, a, n - 1), EmaAt(prices, b, n - 1))
  }

  function SmaUp(m: Market): nat {
    One(RsiWithin(m, 35.0, 70.0)) + One(MacdAboveSignal(m)) + One(VolumeReaches(m, 1.0))
  }

  function SmaDown(m: Market): nat {
    One(RsiWithin(m, 30.0, 65.0)) + One(MacdBelowSignal(m)) + One(VolumeReaches(m, 1.0))
  }

  /** SMA_CROSSOVER buys when the short average overtakes the long one, and sells when it is overtaken. */
  lemma SmaTrades(m: Market, short: nat, long: nat)
    requires 1 <= short && 1 <= long
    ensures var enough := |m.closes| >= 55 && |m.closes| >= long + 2;
      Trades(LeafSignal(SmaCrossover(short, long), m),
             enough && SmaOvertakes(m.closes, short, long) && SmaUp(m) >= 1, 0.5 + 0.15 * SmaUp(m) as real,
             enough && SmaOvertakes(m.closes, long, short) && SmaDown(m) >= 1, 0.5 + 0.15 * SmaDown(m) as real)
  {
    var setup := SmaSetup(m, short, long);
    SmaSides(m, short, long);
    if setup.Setup? {
      SmaVotes(m, short, long);
      SetupTrades(setup, SMA_SCALE);
      Confidences(setup.upVotes);
      Confidences(setup.downVotes);
    }
  }

  lemma SmaSides(m: Market, short: nat, long: nat)
    requires 1 <= short && 1 <= long
    ensures var s, enough := SmaSetup(m, short, long), |m.closes| >= 55 && |m.closes| >= long + 2;
      && (s.Setup? && s.up <==> enough && SmaOvertakes(m.closes, short, long))
      && (s.Setup? && s.down <==> enough && SmaOvertakes(m.closes, long, short))
  {
    var n := |m.closes|;
    if n >= 55 && n >= long + 2 {
      var a, b, x, y := SmaAt(m.closes, short, n - 2), SmaAt(m.closes, long, n - 2), SmaAt(m.closes, short, n - 1),
                        SmaAt(m.closes, long, n - 1);
      assert SmaOvertakes(m.closes, short, long) == Overtakes(a, b, x, y);
      assert SmaOvertakes(m.closes, long, short) == Overtakes(b, a, y, x);
      if n > short {
        SmaSidesOf(m, short, long, a, b, x, y);
      } else {
        assert a.None? && SmaSetup(m, short, long).NoData?;
      }
    }
  }

  lemma SmaSidesOf(m: Market, short: nat, long: nat, a: Option<real>, b: Option<real>, x: Option<real>, y: Option<real>)
    requires 1 <= short < |m.closes| && 1 <= long && |m.closes| >= long + 2 && |m.closes| >= 55
    requires a == SmaAt(m.closes, short, |m.closes| - 2) && b == SmaAt(m.closes, long, |m.closes| - 2)
    requires x == SmaAt(m.closes, short, |m.closes| - 1) && y == SmaAt(m.closes, long, |m.closes| - 1)
    ensures var s := SmaSetup(m, short, long);
      s.Setup? && (s.up <==> Overtakes(a, b, x, y)) && (s.down <==> Overtakes(b, a, y, x))
  {
  }

  lemma SmaVotes(m: Market, short: nat, long: nat)
    requires 1 <= short && 1 <= long && SmaSetup(m, short, long).Setup?
    ensures SmaSetup(m, short, long).upVotes == SmaUp(m) && SmaSetup(m, short, long).downVotes == SmaDown(m)
  {
    VolumeVotes(m);
    MacdVotes(m);
  }

  function EmaUp(m: Market): nat {
    One(RsiWithin(m, 40.0, 70.0)) + One(MacdAboveSignal(m)) + One(VolumeReaches(m, 1.1))
  }

  function EmaDown(m: Market): nat {
    One(RsiWithin(m, 30.0, 60.0)) + One(MacdBelowSignal(m)) + One(VolumeReaches(m, 1.1))
  }

  /** EMA_CROSSOVER likewise with exponential averages. */
  lemma EmaTrades(m: Market, fast: nat, slow: nat)
    requires 1 <= fast && 1 <= slow
    ensures var enough := |m.closes| >= 55 && |m.closes| >= slow + 2;
      Trades(LeafSignal(EmaCrossover(fast, slow), m),
             enough && EmaOvertakes(m.closes, fast, slow) && EmaUp(m) >= 1, 0.5 + 0.15 * EmaUp(m) as real,
             enough && EmaOvertakes(m.closes, slow, fast) && EmaDown(m) >= 1, 0.5 + 0.15 * EmaDown(m) as real)
  {
    var setup := EmaSetup(m, fast, slow);
    EmaSides(m, fast, slow);
    if setup.Setup? {
      EmaVotes(m, fast, slow);
      SetupTrades(setup, EMA_SCALE);
      Confidences(setup.upVotes);
      Confidences(setup.downVotes);
    }
  }

  lemma EmaSides(m: Market, fast: nat, slow: nat)
    requires 1 <= fast && 1 <= slow
    ensures var s, enough := EmaSetup(m, fast, slow), |m.closes| >= 55 && |m.closes| >= slow + 2;
      && (s.Setup? && s.up <==> enough && EmaOvertakes(m.closes, fast, slow))
      && (s.Setup? && s.down <==> enough && EmaOvertakes(m.closes, slow, fast))
  {
  }

  lemma EmaVotes(m: Market, fast: nat, slow: nat)
    requires 1 <= fast && 1 <= slow && EmaSetup(m, fast, slow).Setup?
    ensures EmaSetup(m, fast, slow).upVotes == EmaUp(m) && EmaSetup(m, fast, slow).downVotes == EmaDown(m)
  {
    VolumeVotes(m);
    MacdVotes(m);
  }

  /** How far the MACD line is above its signal line at bar i, where both exist. */
  function Lead(prices: seq<real>, fast: nat, slow: nat, signal: nat, i: nat): Option<real>
    requires 1 <= fast && 1 <= slow && 1 <= signal && i < |prices|
  {
    var line, average := MacdAt(prices, fast, slow, i), SignalAt(prices, fast, slow, signal, i);
    if line.Some? && average.Some? then Some(line.value - average.value) else None
  }

  /** The confidence of a crossing from lead `before` to lead `now`, with the line itself at `line`. */
  function MacdUp(m: Market, before: real, now: real, line: real): nat {
    One(now > -before) + One(RsiWithin(m, 30.0, 65.0)) + One(line > 0.0) + One(VolumeReaches(m, 1.0))
  }

  function MacdDown(m: Market, before: real, now: real, line: real): nat {
    One(-now > before) + One(RsiWithin(m, 35.0, 70.0)) + One(line < 0.0) + One(VolumeReaches(m, 1.0))
  }

  /**
   * MACD buys when the line overtakes its signal line, whatever confirms it, and sells when it is
   * overtaken. It is the more confident when the lead won is larger than the deficit made up.
   */
  lemma MacdTrades(m: Market, fast: nat, slow: nat, signal: nat)
    requires 1 <= fast && 1 <= slow && 1 <= signal
    ensures var n, s := |m.closes|, LeafSignal(Macd(fast, slow, signal), m);
      if n < slow + signal || Lead(m.closes, fast, slow, signal, n - 2).None? then s == Signal(Hold, 0.0)
      else
        && Lead(m.closes, fast, slow, signal, n - 1).Some?
        && var before, now := Lead(m.closes, fast, slow, signal, n - 2).value, Lead(m.closes, fast, slow, signal, n - 1).value;
           var line := MacdAt(m.closes, fast, slow, n - 1).value;
           Trades(s, before <= 0.0 < now, 0.45 + 0.12 * MacdUp(m, before, now, line) as real,
                  now < 0.0 <= before, 0.45 + 0.12 * MacdDown(m, before, now, line) as real)
  {
    var n := |m.closes|;
    MacdDecides(m, fast, slow, signal);
    if n >= slow + signal {
      var e := EntriesOf(m.closes, fast, slow, signal);
      var before, now := Lead(m.closes, fast, slow, signal, n - 2), Lead(m.closes, fast, slow, signal, n - 1);
      LinesExist(m.closes, fast, slow, signal, e);
      if before.Some? {
        LinesTrade(m, e, before.value, now.value, MacdAt(m.closes, fast, slow, n - 1).value);
      }
    }
  }

  lemma MacdDecides(m: Market, fast: nat, slow: nat, signal: nat)
    requires 1 <= fast && 1 <= slow && 1 <= signal
    ensures LeafSignal(Macd(fast, slow, signal), m) ==
      if |m.closes| < slow + signal then HOLD
      else Decide(MacdFrom(EntriesOf(m.closes, fast, slow, signal), CommonOf(m.closes, m.volumes)), MACD_SCALE)
  {
  }

  lemma LinesExist(prices: seq<real>, fast: nat, slow: nat, signal: nat, e: MacdEntries)
    requires 1 <= fast && 1 <= slow && 1 <= signal && |prices| >= slow + signal && e == EntriesOf(prices, fast, slow, signal)
    ensures var before, now := Lead(prices, fast, slow, signal, |prices| - 2), Lead(prices, fast, slow, signal, |prices| - 1);
      if before.None? then e.prevMacd.None? || e.prevSignal.None?
      else
        && now.Some? && e.prevMacd.Some? && e.prevSignal.Some? && e.currMacd.Some? && e.currSignal.Some?
        && e.hist == Some(e.currMacd.value - e.currSignal.value) == now
        && e.prevHist == Some(e.prevMacd.value - e.prevSignal.value) == before
  {
    LeadIsHistogram(prices, fast, slow, signal, |prices| - 2);
    LeadIsHistogram(prices, fast, slow, signal, |prices| - 1);
  }

  /** The lead is the histogram; it exists from one bar on. */
  lemma LeadIsHistogram(prices: seq<real>, fast: nat, slow: nat, signal: nat, i: nat)
    requires 1 <= fast && 1 <= slow && 1 <= signal && i < |prices|
    ensures HistogramAt(prices, fast, slow, signal, i) == Lead(prices, fast, slow, signal, i)
    ensures Lead(prices, fast, slow, signal, i).Some? <==> fast + signal <= i + 2 && slow + signal <= i + 2
  {
    MacdAlignment(prices, fast, slow, signal, i);
    HistogramIsDifference(prices, fast, slow, signal, i);
  }

  lemma LinesTrade(m: Market, e: MacdEntries, before: real, now: real, line: real)
    requires m.closes != []
    requires e.prevMacd.Some? && e.prevSignal.Some? && e.currMacd == Some(line) && e.currSignal.Some?
    requires e.hist == Some(now) && now == e.currMacd.value - e.currSignal.value
    requires e.prevHist == Some(before) && before == e.prevMacd.value - e.prevSignal.value
    ensures
      Trades(Decide(MacdFrom(e, CommonOf(m.closes, m.volumes)), MACD_SCALE),
             before <= 0.0 < now, 0.45 + 0.12 * MacdUp(m, before, now, line) as real,
             now < 0.0 <= before, 0.45 + 0.12 * MacdDown(m, before, now, line) as real)
  {
    var setup := MacdFrom(e, CommonOf(m.closes, m.volumes));
    VolumeVotes(m);
    SetupTrades(setup, MACD_SCALE);
    Confidences(setup.upVotes);
    Confidences(setup.downVotes);
  }

  // ---------- Channels and breakouts ----------

  /** EMA(20) and EMA(50) are in order below the last close. */
  predicate UnderAverages(m: Market) {
    var n := |m.closes|;
    n >= 55 && m.closes[n - 1] >= EmaAt(m.closes, 20, n - 1).value >= EmaAt(m.closes, 50, n - 1).value
  }

  predicate OverAverages(m: Market) {
    var n := |m.closes|;
    n >= 55 && m.closes[n - 1] <= EmaAt(m.closes, 20, n - 1).value <= EmaAt(m.closes, 50, n - 1).value
  }

  function ChannelUp(m: Market): nat {
    One(UnderAverages(m)) + One(RsiWithin(m, 35.0, 70.0)) + One(MacdAboveSignal(m)) + One(VolumeReaches(m, 1.1))
  }

  function ChannelDown(m: Market): nat {
    One(OverAverages(m)) + One(RsiWithin(m, 30.0, 65.0)) + One(MacdBelowSignal(m)) + One(VolumeReaches(m, 1.1))
  }

  /** How far the close of bar i is above the middle of the bar. */
  function Offset(m: Market, i: nat): real
    requires i < |m.closes| && m.HasOhlc()
  {
    m.closes[i] - (m.highs[i] + m.lows[i]) / 2.0
  }

  /** `multiplier` average ranges at bar i. */
  function Reach(m: Market, period: nat, multiplier: real, i: nat): real
    requires 1 <= period <= i < |m.closes| && m.HasOhlc()
  {
    multiplier * AtrAt(m.Bars(), period, i).value
  }

  /**
   * SUPERTREND buys when a close at or below its channel, `multiplier` average ranges under the middle
   * of the bar, is followed by one inside it, and sells likewise from above.
   */
  lemma SupertrendTrades(m: Market, atrPeriod: nat, multiplier: real)
    requires 1 <= atrPeriod
    ensures var n, s := |m.closes|, LeafSignal(Supertrend(atrPeriod, multiplier), m);
      if !m.HasOhlc() || n < 55 || n < atrPeriod + 3 then s == Signal(Hold, 0.0)
      else
        var before, now := Reach(m, atrPeriod, multiplier, n - 2), Reach(m, atrPeriod, multiplier, n - 1);
        Trades(s, Offset(m, n - 2) <= -before && Offset(m, n - 1) > -now && ChannelUp(m) >= 2, 0.5 + 0.1 * ChannelUp(m) as real,
               Offset(m, n - 2) >= before && Offset(m, n - 1) < now && ChannelDown(m) >= 2, 0.5 + 0.1 * ChannelDown(m) as real)
  {
    var n := |m.closes|;
    if m.HasOhlc() && n >= 55 && n >= atrPeriod + 3 {
      ChannelIs(m, atrPeriod, multiplier, n - 2);
      ChannelIs(m, atrPeriod, multiplier, n - 1);
      ChannelTrades(m, ChannelAt(m, atrPeriod, multiplier, n - 2), ChannelAt(m, atrPeriod, multiplier, n - 1));
    } else {
      assert SupertrendSetup(m, atrPeriod, multiplier) == NoData;
    }
  }

  lemma ChannelIs(m: Market, atrPeriod: nat, multiplier: real, i: nat)
    requires 1 <= atrPeriod <= i < |m.closes| && m.HasOhlc()
    ensures var bar := ChannelAt(m, atrPeriod, multiplier, i);
      bar.price == m.closes[i] && bar.price - bar.mid == Offset(m, i) && bar.band == Reach(m, atrPeriod, multiplier, i)
  {
  }

  lemma ChannelTrades(m: Market, prev: ChannelBar, curr: ChannelBar)
    requires |m.closes| >= 55 && curr.price == m.closes[|m.closes| - 1]
    ensures
      Trades(Decide(ChannelsSetup(prev, curr, CommonOf(m.closes, m.volumes)), SUPERTREND_SCALE),
             prev.price - prev.mid <= -prev.band && curr.price - curr.mid > -curr.band && ChannelUp(m) >= 2,
             0.5 + 0.1 * ChannelUp(m) as real,
             prev.price - prev.mid >= prev.band && curr.price - curr.mid < curr.band && ChannelDown(m) >= 2,
             0.5 + 0.1 * ChannelDown(m) as real)
  {
    var setup := ChannelsSetup(prev, curr, CommonOf(m.closes, m.volumes));
    ChannelVotes(m, prev, curr);
    SetupTrades(setup, SUPERTREND_SCALE);
    Confidences(setup.upVotes);
    Confidences(setup.downVotes);
  }

  lemma ChannelVotes(m: Market, prev: ChannelBar, curr: ChannelBar)
    requires |m.closes| >= 55 && curr.price == m.closes[|m.closes| - 1]
    ensures var setup := ChannelsSetup(prev, curr, CommonOf(m.closes, m.volumes));
      setup.upVotes == ChannelUp(m) && setup.downVotes == ChannelDown(m)
  {
    VolumeVotes(m);
    MacdVotes(m);
  }

  /** The price is above every one of the `count` values before the last one, each raised by `margin`. */
  predicate ClearsAll(price: real, values: seq<real>, count: nat, margin: real)
    requires count < |values|
  {
    forall j :: |values| - 1 - count <= j < |values| - 1 ==> price > values[j] + margin
  }

  predicate UndercutsAll(price: real, values: seq<real>, count: nat, margin: real)
    requires count < |values|
  {
    forall j :: |values| - 1 - count <= j < |values| - 1 ==> price < values[j] - margin
  }

  lemma ClearsHighest(price: real, values: seq<real>, count: nat, margin: real)
    requires 1 <= count < |values|
    ensures RollingHighAt(values, count, |values| - 2).Some?
    ensures ClearsAll(price, values, count, margin) <==> price > RollingHighAt(values, count, |values| - 2).value + margin
  {
    var first := |values| - 1 - count;
    var window := values[first..|values| - 1];
    MaxOfIsLargest(window);
    assert forall j :: first <= j < |values| - 1 ==> values[j] == window[j - first];
  }

  lemma UndercutsLowest(price: real, values: seq<real>, count: nat, margin: real)
    requires 1 <= count < |values|
    ensures RollingLowAt(values, count, |values| - 2).Some?
    ensures UndercutsAll(price, values, count, margin) <==> price < RollingLowAt(values, count, |values| - 2).value - margin
  {
    var first := |values| - 1 - count;
    var window := values[first..|values| - 1];
    MaxOfIsLargest(window);
    assert forall j :: first <= j < |values| - 1 ==> values[j] == window[j - first];
  }

  /** The last close clears the highs of the bars before the last, and the one before it does not. */
  predicate BreaksOut(m: Market, count: nat, margin: real)
    requires count < |m.highs| && |m.closes| >= 2
  {
    var n := |m.closes|;
    !ClearsAll(m.closes[n - 2], m.highs, count, margin) && ClearsAll(m.closes[n - 1], m.highs, count, margin)
  }

  predicate BreaksDown(m: Market, count: nat, margin: real)
    requires count < |m.lows| && |m.closes| >= 2
  {
    var n := |m.closes|;
    !UndercutsAll(m.closes[n - 2], m.lows, count, margin) && UndercutsAll(m.closes[n - 1], m.lows, count, margin)
  }

  lemma BreakoutLevels(m: Market, count: nat, margin: real)
    requires 1 <= count < |m.highs| && count < |m.lows| && |m.closes| >= 2
    ensures var prev, curr := m.closes[|m.closes| - 2], m.closes[|m.closes| - 1];
      var high, low := RollingHighAt(m.highs, count, |m.highs| - 2), RollingLowAt(m.lows, count, |m.lows| - 2);
      && high.Some? && low.Some?
      && (BreaksOut(m, count, margin) <==> prev <= high.value + margin && curr > high.value + margin)
      && (BreaksDown(m, count, margin) <==> prev >= low.value - margin && curr < low.value - margin)
  {
    var prev, curr := m.closes[|m.closes| - 2], m.closes[|m.closes| - 1];
    ClearsHighest(prev, m.highs, count, margin);
    ClearsHighest(curr, m.highs, count, margin);
    UndercutsLowest(prev, m.lows, count, margin);
    UndercutsLowest(curr, m.lows, count, margin);
  }

  function TriggerUp(m: Market): nat {
    One(VolumeReaches(m, 1.2)) + One(MacdAboveSignal(m)) + One(RsiAbove(m, 0.0) && RsiWithin(m, 0.0, 75.0))
  }

  function TriggerDown(m: Market): nat {
    One(VolumeReaches(m, 1.2)) + One(MacdBelowSignal(m)) + One(RsiWithin(m, 25.0, 100.0))
  }

  /**
   * ATR_BREAKOUT buys when the last close, and not the one before, clears the highs of the `period` bars
   * before the last by `breakout` average ranges; it sells when it undercuts the lows likewise.
   */
  lemma AtrBreakoutTrades(m: Market, period: nat, breakout: real)
    requires 1 <= period
    ensures var n, s := |m.closes|, LeafSignal(AtrBreakout(period, breakout), m);
      if !m.HasOhlc() || n < period + 5 then s == Signal(Hold, 0.0)
      else
        var margin := Reach(m, period, breakout, n - 1);
        Trades(s, BreaksOut(m, period, margin) && TriggerUp(m) >= 2, 0.55 + 0.1 * TriggerUp(m) as real,
               BreaksDown(m, period, margin) && TriggerDown(m) >= 2, 0.55 + 0.1 * TriggerDown(m) as real)
  {
    var n := |m.closes|;
    if m.HasOhlc() && n >= period + 5 {
      var t := TriggerOf(m, period, breakout);
      TriggerIs(m, period, breakout);
      TriggerTrades(m, t);
    } else {
      assert AtrBreakoutSetup(m, period, breakout) == NoData;
    }
  }

  lemma TriggerIs(m: Market, period: nat, breakout: real)
    requires 1 <= period && period + 5 <= |m.closes| && m.HasOhlc()
    ensures var t, margin := TriggerOf(m, period, breakout), Reach(m, period, breakout, |m.closes| - 1);
      && (BreaksOut(m, period, margin) <==> t.prev <= t.upper && t.curr > t.upper)
      && (BreaksDown(m, period, margin) <==> t.prev >= t.lower && t.curr < t.lower)
  {
    var margin := Reach(m, period, breakout, |m.closes| - 1);
    assert AtrBand(m, period, breakout) == margin;
    BreakoutLevels(m, period, margin);
  }

  lemma RsiScale(m: Market)
    requires m.closes != []
    ensures var rsi := RsiAt(m.closes, 14, |m.closes| - 1); rsi.Some? ==> 0.0 <= rsi.value <= 100.0
  {
    if |m.closes| > 14 {
      RsiEnds(m.closes, 14, |m.closes| - 1);
    }
  }

  lemma TriggerTrades(m: Market, t: Trigger)
    requires m.closes != []
    ensures Trades(Decide(t.Setup(CommonOf(m.closes, m.volumes)), ATR_BREAKOUT_SCALE),
                   t.prev <= t.upper && t.curr > t.upper && TriggerUp(m) >= 2, 0.55 + 0.1 * TriggerUp(m) as real,
                   t.prev >= t.lower && t.curr < t.lower && TriggerDown(m) >= 2, 0.55 + 0.1 * TriggerDown(m) as real)
  {
    var setup := t.Setup(CommonOf(m.closes, m.volumes));
    RsiScale(m);
    VolumeVotes(m);
    MacdVotes(m);
    assert setup.upVotes == TriggerUp(m) && setup.downVotes == TriggerDown(m);
    SetupTrades(setup, ATR_BREAKOUT_SCALE);
    Confidences(setup.upVotes);
    Confidences(setup.downVotes);
  }

  function MomentumUp(m: Market, volMult: real): nat {
    One(RsiAbove(m, 50.0)) + One(VolumeSurges(m, volMult)) + One(MacdAboveSignal(m))
  }

  function MomentumDown(m: Market, volMult: real): nat {
    One(RsiAbove(m, 0.0) && RsiBelow(m, 50.0)) + One(VolumeSurges(m, volMult)) + One(MacdBelowSignal(m))
  }

  /**
   * MOMENTUM_BREAKOUT buys when the last close, and not the one before, clears the highs of the
   * `lookback` bars before the last, and sells when it undercuts the lows.
   */
  lemma MomentumTrades(m: Market, lookback: nat, volMult: real)
    requires 1 <= lookback
    ensures var s := LeafSignal(MomentumBreakout(lookback, volMult), m);
      if |m.closes| < lookback + 5 || |m.highs| <= lookback || |m.lows| <= lookback then s == Signal(Hold, 0.0)
      else
        Trades(s, BreaksOut(m, lookback, 0.0) && MomentumUp(m, volMult) >= 1,
               Min(0.95, 0.55 + 0.15 * MomentumUp(m, volMult) as real),
               BreaksDown(m, lookback, 0.0) && MomentumDown(m, volMult) >= 1,
               Min(0.95, 0.55 + 0.15 * MomentumDown(m, volMult) as real))
  {
    var n := |m.closes|;
    if n >= lookback + 5 && |m.highs| > lookback && |m.lows| > lookback {
      BreakoutLevels(m, lookback, 0.0);
      var high, low := BreakoutHigh(m, lookback).value, BreakoutLow(m, lookback).value;
      assert MomentumSetup(m, lookback, volMult)
          == BreakoutSetup(m.closes[n - 2], m.closes[n - 1], high, low, volMult, CommonOf(m.closes, m.volumes));
      BreakoutTrades(m, m.closes[n - 2], m.closes[n - 1], high, low, volMult);
    } else {
      assert MomentumSetup(m, lookback, volMult) == NoData;
    }
  }

  lemma BreakoutTrades(m: Market, prev: real, curr: real, high: real, low: real, volMult: real)
    requires m.closes != []
    ensures Trades(Decide(BreakoutSetup(prev, curr, high, low, volMult, CommonOf(m.closes, m.volumes)), MOMENTUM_SCALE),
                   prev <= high && curr > high && MomentumUp(m, volMult) >= 1,
                   Min(0.95, 0.55 + 0.15 * MomentumUp(m, volMult) as real),
                   prev >= low && curr < low && MomentumDown(m, volMult) >= 1,
                   Min(0.95, 0.55 + 0.15 * MomentumDown(m, volMult) as real))
  {
    var setup := BreakoutSetup(prev, curr, high, low, volMult, CommonOf(m.closes, m.volumes));
    RsiScale(m);
    SurgeVote(m, volMult);
    MacdVotes(m);
    assert setup.upVotes == MomentumUp(m, volMult) && setup.downVotes == MomentumDown(m, volMult);
    SetupTrades(setup, MOMENTUM_SCALE);
    Confidences(setup.upVotes);
    Confidences(setup.downVotes);
  }

  // ---------- Trend strength ----------

  /** The last entries of the two averages exist, are not zero, and the first is above the second. */
  predicate EmaAbove(m: Market, a: nat, b: nat)
    requires 1 <= a && 1 <= b
  {
    var n := |m.closes|;
    && 1 <= n && a <= n && b <= n
    && var x, y := EmaAt(m.closes, a, n - 1).value, EmaAt(m.closes, b, n - 1).value;
       x != 0.0 && y != 0.0 && x > y
  }

  /** ADX(14) is higher than one bar ago. */
  predicate TrendRises(m: Market)
    requires m.Bars().Complete()
  {
    var n := |m.closes|;
    && n >= 2 && AdxAt(m.Bars(), 14, n - 2).Some? && AdxAt(m.Bars(), 14, n - 1).Some?
    && AdxAt(m.Bars(), 14, n - 1).value > AdxAt(m.Bars(), 14, n - 2).value
  }

  function TrendUp(m: Market, fast: nat, slow: nat): nat
    requires 1 <= fast && 1 <= slow && m.Bars().Complete()
  {
    One(EmaAbove(m, fast, slow)) + One(MacdAboveSignal(m)) + One(TrendRises(m)) + One(RsiWithin(m, 40.0, 75.0))
      + One(VolumeReaches(m, 1.1))
  }

  function TrendDown(m: Market, fast: nat, slow: nat): nat
    requires 1 <= fast && 1 <= slow && m.Bars().Complete()
  {
    One(EmaAbove(m, slow, fast)) + One(MacdBelowSignal(m)) + One(TrendRises(m)) + One(RsiWithin(m, 25.0, 60.0))
      + One(VolumeReaches(m, 1.1))
  }

  /** TREND_STRENGTH_ADX trades in the direction of the leading indicator of a strong trend. */
  lemma TrendTrades(m: Market, threshold: real, diGap: real, fast: nat, slow: nat)
    requires 1 <= fast && 1 <= slow && m.Bars().Complete()
    ensures var n, s := |m.closes|, LeafSignal(TrendStrengthAdx(threshold, diGap, fast, slow), m);
      if n < 35 || AdxAt(m.Bars(), 14, n - 1).None? || PlusDiAt(m.Bars(), 14, n - 1).None? then s == Signal(Hold, 0.0)
      else
        && MinusDiAt(m.Bars(), 14, n - 1).Some?
        && var strong := AdxAt(m.Bars(), 14, n - 1).value >= threshold;
           var lead := PlusDiAt(m.Bars(), 14, n - 1).value - MinusDiAt(m.Bars(), 14, n - 1).value;
           Trades(s, strong && lead > 0.0 && lead >= diGap && TrendUp(m, fast, slow) >= 2,
                  0.6 + 0.07 * TrendUp(m, fast, slow) as real,
                  strong && lead < 0.0 && -lead >= diGap && TrendDown(m, fast, slow) >= 2,
                  0.6 + 0.07 * TrendDown(m, fast, slow) as real)
  {
    var n := |m.closes|;
    if n >= 35 && AdxAt(m.Bars(), 14, n - 1).Some? && PlusDiAt(m.Bars(), 14, n - 1).Some? {
      var e := TrendEntriesOf(m, fast, slow);
      var setup := TrendFrom(e, threshold, diGap, CommonOf(m.closes, m.volumes));
      TrendVotes(m, e, threshold, diGap, fast, slow);
      SetupTrades(setup, TREND_SCALE);
      Confidences(setup.upVotes);
      Confidences(setup.downVotes);
    } else {
      assert TrendStrengthSetup(m, threshold, diGap, fast, slow) == NoData;
    }
  }

  lemma TrendVotes(m: Market, e: TrendEntries, threshold: real, diGap: real, fast: nat, slow: nat)
    requires 1 <= fast && 1 <= slow && m.Bars().Complete() && |m.closes| >= 35
    requires e == TrendEntriesOf(m, fast, slow) && e.adx.Some? && e.pdi.Some? && e.mdi.Some?
    ensures var setup := TrendFrom(e, threshold, diGap, CommonOf(m.closes, m.volumes));
      && setup.Setup?
      && setup.upVotes == TrendUp(m, fast, slow) && setup.downVotes == TrendDown(m, fast, slow)
  {
    var c := CommonOf(m.closes, m.volumes);
    VolumeVotes(m);
    MacdVotes(m);
    AveragesVote(m, e, fast, slow);
    RisesVote(m, e, fast, slow);
    RsiVote(m, 40.0, 75.0);
    RsiVote(m, 25.0, 60.0);
    TrendCount(e, threshold, diGap, c);
  }

  lemma RsiVote(m: Market, lo: real, hi: real)
    requires m.closes != []
    ensures Between(CommonOf(m.closes, m.volumes).rsi, lo, hi) <==> RsiWithin(m, lo, hi)
  {
  }

  lemma RisesVote(m: Market, e: TrendEntries, fast: nat, slow: nat)
    requires 1 <= fast && 1 <= slow && m.Bars().Complete() && |m.closes| >= 35
    requires e == TrendEntriesOf(m, fast, slow) && e.adx.Some?
    ensures e.prevAdx.Some? && e.adx.value > e.prevAdx.value <==> TrendRises(m)
  {
  }

  lemma TrendCount(e: TrendEntries, threshold: real, diGap: real, c: Common)
    requires e.adx.Some? && e.pdi.Some? && e.mdi.Some?
    ensures var setup, rising := TrendFrom(e, threshold, diGap, c), e.prevAdx.Some? && e.adx.value > e.prevAdx.value;
      && setup.Setup?
      && setup.upVotes == One(Truthy(e.fast) && Truthy(e.slow) && e.fast.value > e.slow.value) + One(Positive(c.macdHist))
           + One(rising) + One(Between(c.rsi, 40.0, 75.0)) + One(AtLeast(c.volRatio, 1.1))
      && setup.downVotes == One(Truthy(e.fast) && Truthy(e.slow) && e.fast.value < e.slow.value) + One(Negative(c.macdHist))
           + One(rising) + One(Between(c.rsi, 25.0, 60.0)) + One(AtLeast(c.volRatio, 1.1))
  {
  }

  lemma AveragesVote(m: Market, e: TrendEntries, fast: nat, slow: nat)
    requires 1 <= fast && 1 <= slow && m.Bars().Complete() && |m.closes| >= 35
    requires e == TrendEntriesOf(m, fast, slow)
    ensures Truthy(e.fast) && Truthy(e.slow) && e.fast.value > e.slow.value <==> EmaAbove(m, fast, slow)
    ensures Truthy(e.fast) && Truthy(e.slow) && e.fast.value < e.slow.value <==> EmaAbove(m, slow, fast)
  {
  }
}
