/**
 * What each strategy of backend/engines/signals.py decides.
 *
 * A strategy looks for a bullish and a bearish setup, counts the confirmations of each, and turns
 * a setup with enough confirmations into a signal. The methods of SignalEngine walk through the
 * indicator lists the way the source does and are proved to return these decisions.
 */
module SignalSpec {
  import opened Prelude
  import opened Rounding
  import opened IndicatorSpec

  datatype Action = Buy | Sell | Hold

  datatype Signal = Signal(action: Action, confidence: real)

  const HOLD := Signal(Hold, 0.0)

  datatype Market = Market(closes: seq<real>, highs: seq<real>, lows: seq<real>, volumes: seq<int>) {
    function Bars(): Bars {
      IndicatorSpec.Bars.Bars(highs, lows, closes)
    }

    /** The four OHLC-based strategies that check their input insist on equally long, non-empty lists. */
    predicate HasOhlc() {
      highs != [] && lows != [] && |highs| == |lows| && |lows| == |closes|
    }
  }

  // ---------- Common indicators ----------

  datatype Common = Common(rsi: Option<real>, macdHist: Option<real>, volRatio: Option<real>,
                           ema20: Option<real>, ema50: Option<real>)

  function CommonOf(closes: seq<real>, volumes: seq<int>): Common
    requires closes != []
  {
    var last := |closes| - 1;
    Common(RsiAt(closes, 14, last),
           if |closes| < 35 then None else HistogramAt(closes, 12, 26, 9, last),
           VolRatio(volumes),
           EmaAt(closes, 20, last),
           if |closes| >= 55 then EmaAt(closes, 50, last) else None)
  }

  /** Last volume over the mean of the last twenty, rounded; missing when that mean is not positive or the ratio is zero. */
  function VolRatio(volumes: seq<int>): Option<real> {
    var n := |volumes|;
    if n < 20 then None
    else
      var average := SumInt(volumes[n - 20..]) as real / 20.0;
      if average > 0.0 && volumes[n - 1] != 0 then Some(Round2(volumes[n - 1] as real / average)) else None
  }

  predicate Between(x: Option<real>, lo: real, hi: real) {
    x.Some? && lo <= x.value <= hi
  }

  predicate AtLeast(x: Option<real>, lo: real) {
    x.Some? && lo <= x.value
  }

  predicate Positive(x: Option<real>) {
    x.Some? && x.value > 0.0
  }

  predicate Negative(x: Option<real>) {
    x.Some? && x.value < 0.0
  }

  /** The source's truth test of an optional number: a value of 0.0 counts as missing. */
  predicate Truthy(x: Option<real>) {
    x.Some? && x.value != 0.0
  }

  // ---------- Setups and decisions ----------

  datatype Setup = NoData | Setup(up: bool, upVotes: nat, down: bool, downVotes: nat)

  /** How confirmations become a signal: votes needed, base confidence, gain per vote, cap. */
  datatype Scale = Scale(quorum: nat, base: real, step: real, cap: real)

  function Confidence(scale: Scale, votes: nat): real {
    Min(scale.base + votes as real * scale.step, scale.cap)
  }

  function Decide(setup: Setup, scale: Scale): Signal {
    if setup.NoData? then HOLD
    else if setup.up && setup.upVotes >= scale.quorum then Signal(Buy, Confidence(scale, setup.upVotes))
    else if setup.down && setup.downVotes >= scale.quorum then Signal(Sell, Confidence(scale, setup.downVotes))
    else HOLD
  }

  predicate CrossesAbove(prevA: real, prevB: real, currA: real, currB: real) {
    prevA <= prevB && currA > currB
  }

  // ---------- The strategies ----------

  /**
   * A strategy with its parameters. The types that are not modelled one by one, RSI, BOLLINGER,
   * VWAP_BOUNCE, STOCHASTIC_REVERSION and MEAN_REVERSION_BB, are any function of the market.
   */
  datatype Leaf =
    | SmaCrossover(short: nat, long: nat)
    | EmaCrossover(fast: nat, slow: nat)
    | Macd(fast: nat, slow: nat, signal: nat)
    | Supertrend(atrPeriod: nat, multiplier: real)
    | AtrBreakout(period: nat, breakout: real)
    | MomentumBreakout(lookback: nat, volMult: real)
    | TrendStrengthAdx(threshold: real, diGap: real, fastEma: nat, slowEma: nat)
    | OtherType(decide: Market -> Signal)
    | UnknownType
  {
    /** Periods the source can divide by and window over. */
    predicate PositivePeriods() {
      match this
      case SmaCrossover(short, long) => 1 <= short && 1 <= long
      case EmaCrossover(fast, slow) => 1 <= fast && 1 <= slow
      case Macd(fast, slow, signal) => 1 <= fast && 1 <= slow && 1 <= signal
      case Supertrend(atrPeriod, _) => 1 <= atrPeriod
      case AtrBreakout(period, _) => 1 <= period
      case MomentumBreakout(lookback, _) => 1 <= lookback
      case TrendStrengthAdx(_, _, fastEma, slowEma) => 1 <= fastEma && 1 <= slowEma
      case OtherType(_) => true
      case UnknownType => true
    }

    /** Inputs on which evaluation indexes no list out of range. */
    predicate Evaluable(m: Market) {
      && PositivePeriods()
      && (TrendStrengthAdx? && |m.closes| >= 35 ==> m.Bars().Complete())
    }
  }

  /** Line a crosses line b upwards or downwards. */
  function CrossoverSetup(prevA: real, prevB: real, currA: real, currB: real, upVotes: nat, downVotes: nat): Setup {
    Setup(CrossesAbove(prevA, prevB, currA, currB), upVotes, CrossesAbove(prevB, prevA, currB, currA), downVotes)
  }

  function SmaCross(prevShort: real, prevLong: real, currShort: real, currLong: real, c: Common): Setup {
    CrossoverSetup(prevShort, prevLong, currShort, currLong,
      One(Between(c.rsi, 35.0, 70.0)) + One(Positive(c.macdHist)) + One(AtLeast(c.volRatio, 1.0)),
      One(Between(c.rsi, 30.0, 65.0)) + One(Negative(c.macdHist)) + One(AtLeast(c.volRatio, 1.0)))
  }

  function SmaSetup(m: Market, short: nat, long: nat): Setup
    requires 1 <= short && 1 <= long
  {
    var n := |m.closes|;
    if n < long + 2 || n < 55 || n - 1 < short then NoData
    else
      SmaCross(SmaAt(m.closes, short, n - 2).value, SmaAt(m.closes, long, n - 2).value,
               SmaAt(m.closes, short, n - 1).value, SmaAt(m.closes, long, n - 1).value,
               CommonOf(m.closes, m.volumes))
  }

  const SMA_SCALE := Scale(1, 0.5, 0.15, 0.95)

  function EmaCross(prevFast: real, prevSlow: real, currFast: real, currSlow: real, c: Common): Setup {
    CrossoverSetup(prevFast, prevSlow, currFast, currSlow,
      One(Between(c.rsi, 40.0, 70.0)) + One(Positive(c.macdHist)) + One(AtLeast(c.volRatio, 1.1)),
      One(Between(c.rsi, 30.0, 60.0)) + One(Negative(c.macdHist)) + One(AtLeast(c.volRatio, 1.1)))
  }

  function EmaSetup(m: Market, fast: nat, slow: nat): Setup
    requires 1 <= fast && 1 <= slow
  {
    var n := |m.closes|;
    if n < slow + 2 || n < 55 || n - 1 < fast then NoData
    else
      EmaCross(EmaValue(m.closes, fast, n - 2), EmaValue(m.closes, slow, n - 2),
               EmaValue(m.closes, fast, n - 1), EmaValue(m.closes, slow, n - 1),
               CommonOf(m.closes, m.volumes))
  }

  const EMA_SCALE := Scale(1, 0.5, 0.15, 0.95)

  /** The histogram is further from zero than one bar ago. */
  predicate Growing(curr: Option<real>, prev: Option<real>) {
    curr.Some? && prev.Some? && Abs(curr.value) > Abs(prev.value)
  }

  function MacdCross(prevMacd: real, prevSignal: real, currMacd: real, currSignal: real,
                     hist: Option<real>, growing: bool, c: Common): Setup
  {
    CrossoverSetup(prevMacd, prevSignal, currMacd, currSignal,
      One(growing && Positive(hist)) + One(Between(c.rsi, 30.0, 65.0)) + One(currMacd > 0.0)
        + One(AtLeast(c.volRatio, 1.0)),
      One(growing && Negative(hist)) + One(Between(c.rsi, 35.0, 70.0)) + One(currMacd < 0.0)
        + One(AtLeast(c.volRatio, 1.0)))
  }

  /** The last two entries of the three lines. */
  datatype MacdEntries = MacdEntries(prevMacd: Option<real>, prevSignal: Option<real>, currMacd: Option<real>,
                                     currSignal: Option<real>, hist: Option<real>, prevHist: Option<real>)

  function EntriesOf(closes: seq<real>, fast: nat, slow: nat, signal: nat): MacdEntries
    requires 1 <= fast && 1 <= slow && 1 <= signal && |closes| >= 2
  {
    var n := |closes|;
    MacdEntries(MacdAt(closes, fast, slow, n - 2), SignalAt(closes, fast, slow, signal, n - 2),
                MacdAt(closes, fast, slow, n - 1), SignalAt(closes, fast, slow, signal, n - 1),
                HistogramAt(closes, fast, slow, signal, n - 1), HistogramAt(closes, fast, slow, signal, n - 2))
  }

  function MacdFrom(e: MacdEntries, c: Common): Setup {
    if e.prevMacd.None? || e.prevSignal.None? || e.currMacd.None? || e.currSignal.None? then NoData
    else
      MacdCross(e.prevMacd.value, e.prevSignal.value, e.currMacd.value, e.currSignal.value, e.hist,
                Growing(e.hist, e.prevHist), c)
  }

  function MacdSetup(m: Market, fast: nat, slow: nat, signal: nat): Setup
    requires 1 <= fast && 1 <= slow && 1 <= signal
  {
    if |m.closes| < slow + signal then NoData
    else MacdFrom(EntriesOf(m.closes, fast, slow, signal), CommonOf(m.closes, m.volumes))
  }

  const MACD_SCALE := Scale(0, 0.45, 0.12, 0.95)

  /** Middle of bar i. */
  function Mid(m: Market, i: nat): real
    requires i < |m.highs| && i < |m.lows|
  {
    (m.highs[i] + m.lows[i]) / 2.0
  }

  /** Half-width of a volatility channel. */
  function Band(multiplier: real, atr: real): real {
    multiplier * atr
  }

  /** Price re-enters the channel mid +- band from below or from above. */
  function ChannelSetup(prev: real, curr: real, prevMid: real, currMid: real, prevBand: real, currBand: real,
                        c: Common): Setup
  {
    var uptrend := c.ema20.Some? && c.ema50.Some? && curr >= c.ema20.value >= c.ema50.value;
    var downtrend := c.ema20.Some? && c.ema50.Some? && curr <= c.ema20.value <= c.ema50.value;
    Setup(prev <= prevMid - prevBand && curr > currMid - currBand,
          One(uptrend) + One(Between(c.rsi, 35.0, 70.0)) + One(Positive(c.macdHist)) + One(AtLeast(c.volRatio, 1.1)),
          prev >= prevMid + prevBand && curr < currMid + currBand,
          One(downtrend) + One(Between(c.rsi, 30.0, 65.0)) + One(Negative(c.macdHist)) + One(AtLeast(c.volRatio, 1.1)))
  }

  /** A close and the channel around it. */
  datatype ChannelBar = ChannelBar(price: real, mid: real, band: real)

  function ChannelAt(m: Market, atrPeriod: nat, multiplier: real, i: nat): ChannelBar
    requires 1 <= atrPeriod <= i < |m.closes| && m.HasOhlc()
  {
    ChannelBar(m.closes[i], Mid(m, i), Band(multiplier, AtrAt(m.Bars(), atrPeriod, i).value))
  }

  function ChannelsSetup(prev: ChannelBar, curr: ChannelBar, c: Common): Setup {
    ChannelSetup(prev.price, curr.price, prev.mid, curr.mid, prev.band, curr.band, c)
  }

  function SupertrendSetup(m: Market, atrPeriod: nat, multiplier: real): Setup
    requires 1 <= atrPeriod
  {
    var n := |m.closes|;
    if !m.HasOhlc() || n < atrPeriod + 3 || n < 55 then NoData
    else
      ChannelsSetup(ChannelAt(m, atrPeriod, multiplier, n - 2), ChannelAt(m, atrPeriod, multiplier, n - 1),
                    CommonOf(m.closes, m.volumes))
  }

  const SUPERTREND_SCALE := Scale(2, 0.5, 0.1, 0.92)

  /** Price leaves the range through its upper or lower trigger. */
  function TriggerSetup(prev: real, curr: real, upper: real, lower: real, c: Common): Setup {
    Setup(prev <= upper && curr > upper,
          One(AtLeast(c.volRatio, 1.2)) + One(Positive(c.macdHist)) + One(Truthy(c.rsi) && c.rsi.value <= 75.0),
          prev >= lower && curr < lower,
          One(AtLeast(c.volRatio, 1.2)) + One(Negative(c.macdHist)) + One(Truthy(c.rsi) && c.rsi.value >= 25.0))
  }

  /** Highest high and lowest low of the `period` bars before the last one. */
  function RangeHigh(m: Market, period: nat): real
    requires 1 <= period && period + 1 <= |m.closes| && m.HasOhlc()
  {
    RollingHighAt(m.highs, period, |m.closes| - 2).value
  }

  function RangeLow(m: Market, period: nat): real
    requires 1 <= period && period + 1 <= |m.closes| && m.HasOhlc()
  {
    RollingLowAt(m.lows, period, |m.closes| - 2).value
  }

  /** How far outside the range the triggers lie. */
  function AtrBand(m: Market, period: nat, breakout: real): real
    requires 1 <= period && period + 5 <= |m.closes| && m.HasOhlc()
  {
    Band(breakout, AtrAt(m.Bars(), period, |m.closes| - 1).value)
  }

  /** The last two prices and the levels that trigger a breakout. */
  datatype Trigger = Trigger(prev: real, curr: real, upper: real, lower: real) {
    function Setup(c: Common): Setup {
      TriggerSetup(prev, curr, upper, lower, c)
    }
  }

  function TriggerOf(m: Market, period: nat, breakout: real): Trigger
    requires 1 <= period && period + 5 <= |m.closes| && m.HasOhlc()
  {
    var n, band := |m.closes|, AtrBand(m, period, breakout);
    Trigger(m.closes[n - 2], m.closes[n - 1], RangeHigh(m, period) + band, RangeLow(m, period) - band)
  }

  function AtrBreakoutSetup(m: Market, period: nat, breakout: real): Setup
    requires 1 <= period
  {
    if !m.HasOhlc() || |m.closes| < period + 5 then NoData
    else TriggerOf(m, period, breakout).Setup(CommonOf(m.closes, m.volumes))
  }

  const ATR_BREAKOUT_SCALE := Scale(2, 0.55, 0.1, 0.92)

  /** Price closes outside the rolling high or low. */
  function BreakoutSetup(prev: real, curr: real, high: real, low: real, volMult: real, c: Common): Setup {
    var surge := Truthy(c.volRatio) && c.volRatio.value >= volMult;
    Setup(curr > high && prev <= high,
          One(Truthy(c.rsi) && c.rsi.value > 50.0) + One(surge) + One(Positive(c.macdHist)),
          curr < low && prev >= low,
          One(Truthy(c.rsi) && c.rsi.value < 50.0) + One(surge) + One(Negative(c.macdHist)))
  }

  /** Rolling high and low of the bar before the last one. */
  function BreakoutHigh(m: Market, lookback: nat): Option<real>
    requires 1 <= lookback
  {
    if |m.highs| < 2 then None else RollingHighAt(m.highs, lookback, |m.highs| - 2)
  }

  function BreakoutLow(m: Market, lookback: nat): Option<real>
    requires 1 <= lookback
  {
    if |m.lows| < 2 then None else RollingLowAt(m.lows, lookback, |m.lows| - 2)
  }

  function MomentumSetup(m: Market, lookback: nat, volMult: real): Setup
    requires 1 <= lookback
  {
    var n := |m.closes|;
    var high, low := BreakoutHigh(m, lookback), BreakoutLow(m, lookback);
    if n < lookback + 5 || high.None? || low.None? then NoData
    else
      BreakoutSetup(m.closes[n - 2], m.closes[n - 1], high.value, low.value, volMult, CommonOf(m.closes, m.volumes))
  }

  const MOMENTUM_SCALE := Scale(1, 0.55, 0.15, 0.95)

  /** One directional indicator leads the other while trend strength is above its threshold. */
  function TrendSetup(strong: bool, rising: bool, pdi: real, mdi: real, diGap: real,
                      fast: Option<real>, slow: Option<real>, c: Common): Setup
  {
    Setup(strong && pdi > mdi && pdi - mdi >= diGap,
          One(Truthy(fast) && Truthy(slow) && fast.value > slow.value) + One(Positive(c.macdHist)) + One(rising)
            + One(Between(c.rsi, 40.0, 75.0)) + One(AtLeast(c.volRatio, 1.1)),
          strong && mdi > pdi && mdi - pdi >= diGap,
          One(Truthy(fast) && Truthy(slow) && fast.value < slow.value) + One(Negative(c.macdHist)) + One(rising)
            + One(Between(c.rsi, 25.0, 60.0)) + One(AtLeast(c.volRatio, 1.1)))
  }

  /** The last entries the trend strategy reads. */
  datatype TrendEntries = TrendEntries(adx: Option<real>, prevAdx: Option<real>, pdi: Option<real>, mdi: Option<real>,
                                       fast: Option<real>, slow: Option<real>)

  function TrendEntriesOf(m: Market, fastEma: nat, slowEma: nat): TrendEntries
    requires 1 <= fastEma && 1 <= slowEma && |m.closes| >= 2 && m.Bars().Complete()
  {
    var n := |m.closes|;
    TrendEntries(AdxAt(m.Bars(), 14, n - 1), AdxAt(m.Bars(), 14, n - 2), PlusDiAt(m.Bars(), 14, n - 1),
                 MinusDiAt(m.Bars(), 14, n - 1), EmaAt(m.closes, fastEma, n - 1), EmaAt(m.closes, slowEma, n - 1))
  }

  /** No decision until ADX and both directional indicators exist. */
  function TrendFrom(e: TrendEntries, threshold: real, diGap: real, c: Common): Setup {
    if e.adx.None? || e.pdi.None? || e.mdi.None? then NoData
    else
      TrendSetup(e.adx.value >= threshold, e.prevAdx.Some? && e.adx.value > e.prevAdx.value, e.pdi.value, e.mdi.value,
                 diGap, e.fast, e.slow, c)
  }

  function TrendStrengthSetup(m: Market, threshold: real, diGap: real, fastEma: nat, slowEma: nat): Setup
    requires 1 <= fastEma && 1 <= slowEma
    requires |m.closes| >= 35 ==> m.Bars().Complete()
  {
    if |m.closes| < 35 then NoData
    else TrendFrom(TrendEntriesOf(m, fastEma, slowEma), threshold, diGap, CommonOf(m.closes, m.volumes))
  }

  const TREND_SCALE := Scale(2, 0.60, 0.07, 0.95)

  function SetupOf(leaf: Leaf, m: Market): Setup
    requires leaf.Evaluable(m) && !leaf.OtherType?
  {
    match leaf
    case SmaCrossover(short, long) => SmaSetup(m, short, long)
    case EmaCrossover(fast, slow) => EmaSetup(m, fast, slow)
    case Macd(fast, slow, signal) => MacdSetup(m, fast, slow, signal)
    case Supertrend(atrPeriod, multiplier) => SupertrendSetup(m, atrPeriod, multiplier)
    case AtrBreakout(period, breakout) => AtrBreakoutSetup(m, period, breakout)
    case MomentumBreakout(lookback, volMult) => MomentumSetup(m, lookback, volMult)
    case TrendStrengthAdx(threshold, diGap, fastEma, slowEma) =>
      TrendStrengthSetup(m, threshold, diGap, fastEma, slowEma)
    case UnknownType => NoData
  }

  function ScaleOf(leaf: Leaf): Scale
    requires !leaf.OtherType?
  {
    match leaf
    case SmaCrossover(_, _) => SMA_SCALE
    case EmaCrossover(_, _) => EMA_SCALE
    case Macd(_, _, _) => MACD_SCALE
    case Supertrend(_, _) => SUPERTREND_SCALE
    case AtrBreakout(_, _) => ATR_BREAKOUT_SCALE
    case MomentumBreakout(_, _) => MOMENTUM_SCALE
    case TrendStrengthAdx(_, _, _, _) => TREND_SCALE
    case UnknownType => SMA_SCALE
  }

  function LeafSignal(leaf: Leaf, m: Market): Signal
    requires leaf.Evaluable(m)
  {
    if leaf.OtherType? then leaf.decide(m) else Decide(SetupOf(leaf, m), ScaleOf(leaf))
  }

  // ---------- Composite ----------

  /** A rule of a composite; entries that are not rules, or name another composite, are ignored. */
  datatype Rule = Ignored | Rule(leaf: Leaf)

  datatype Strategy = Single(leaf: Leaf) | Composite(rules: seq<Rule>, anyMode: bool) {
    predicate Evaluable(m: Market) {
      match this
      case Single(leaf) => leaf.Evaluable(m)
      case Composite(rules, _) => forall i :: 0 <= i < |rules| && rules[i].Rule? ==> rules[i].leaf.Evaluable(m)
    }
  }

  /** Signals of the rules that count, in order. */
  function SubSignals(rules: seq<Rule>, m: Market): seq<Signal>
    requires forall i :: 0 <= i < |rules| && rules[i].Rule? ==> rules[i].leaf.Evaluable(m)
  {
    if rules == [] then []
    else
      var rest := SubSignals(rules[..|rules| - 1], m);
      var last := rules[|rules| - 1];
      if last.Rule? then rest + [LeafSignal(last.leaf, m)] else rest
  }

  /** Confidences of the signals with the given action. */
  function Backing(signals: seq<Signal>, action: Action): seq<real> {
    if signals == [] then []
    else
      var rest := Backing(signals[..|signals| - 1], action);
      var last := signals[|signals| - 1];
      if last.action == action then rest + [last.confidence] else rest
  }

  /** One rule is enough, unless another rule contradicts it. */
  function CombineAny(signals: seq<Signal>): Signal {
    var buys, sells := Backing(signals, Buy), Backing(signals, Sell);
    if buys != [] && sells == [] then
      Signal(Buy, Min(0.95, MaxOf(buys) + (|buys| - 1) as real * 0.05))
    else if sells != [] && buys == [] then
      Signal(Sell, Min(0.95, MaxOf(sells) + (|sells| - 1) as real * 0.05))
    else HOLD
  }

  /** Every rule must agree. */
  function CombineAll(signals: seq<Signal>): Signal
    requires signals != []
  {
    var buys, sells := Backing(signals, Buy), Backing(signals, Sell);
    if |buys| == |signals| then Signal(Buy, Min(0.95, Sum(buys) / |signals| as real + 0.1))
    else if |sells| == |signals| then Signal(Sell, Min(0.95, Sum(sells) / |signals| as real + 0.1))
    else HOLD
  }

  function Combine(signals: seq<Signal>, anyMode: bool): Signal {
    if signals == [] then HOLD
    else if anyMode then CombineAny(signals)
    else CombineAll(signals)
  }

  function StrategySignal(s: Strategy, m: Market): Signal
    requires s.Evaluable(m)
  {
    match s
    case Single(leaf) => LeafSignal(leaf, m)
    case Composite(rules, anyMode) => Combine(SubSignals(rules, m), anyMode)
  }
}
