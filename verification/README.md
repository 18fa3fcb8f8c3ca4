# Verified model of the AlphaSync backend

AlphaSync is a trading backend. This project models the parts of it that compute: the technical
indicators and the strategies built on them, the making of price candles from provider feeds, the
response cache, the request limiter, and the small kernels that decode, index and order quotes. It
states in Dafny what these parts are for and proves it for all inputs, all runs and all arrival orders.

`dafny verify dfyconfig.toml` checks the whole project.

## How it is laid out

| files | source | contents |
|---|---|---|
| `Prelude` | | sums, extremes, reflected lists, a few facts about real division |
| `IndicatorSpec`, `IndicatorEngine` | `engines/indicators.py` | the value of each indicator at a bar; the loops that compute the lists |
| `Rounding` | `engines/indicators.py` | rounding to two and four decimals, halves to even, and reflection |
| `MovingAverageLaws`, `RsiLaws`, `AdxLaws` | `engines/indicators.py` | what the recurrences preserve: ranges, memory, alignment, reflection |
| `IndicatorMeaning` | `engines/indicators.py` | what the values say about the prices: weights, exact differences, spans and shares |
| `SignalSpec`, `SignalEngine`, `SignalDuality` | `engines/signals.py` | what a strategy decides; the branching code; long/short duality |
| `SignalMeaning`, `CompositeMeaning`, `CrossoverMarkets` | `engines/signals.py` | when each strategy trades, read off the market; composites read off their rules; a market worked out |
| `Candles`, `CandleAggregation`, `CandleResampling` | `zebu_provider.py`, `alice_blue_provider.py` | bucket summaries; the streaming and the dictionary resampler |
| `VolumeDecoding`, `CandleParsing`, `CandlePrices` | `zebu_provider.py` | from cumulative session volumes to bar volumes, twice; which prices the candles have |
| `CacheSpec`, `CacheEffects`, `CacheLaws`, `CachedFunction`, `SmartCache` | `smart_cache.py` | the cache as a state machine; what each operation does to look-ups; whole-run laws; the decorator; the class |
| `RateLimitSpec`, `RateLimitLaws`, `RateLimitRedis`, `RateLimiter` | `rate_limiter.py` | the two limiters as state machines; window bound and retry promise; their agreement; the classes |
| `KiteFrames` | `zerodha_provider.py` | binary frames and packets |
| `SymbolMapper`, `ContractNames`, `SymbolMaps` | `symbol_mapper.py` | contracts, tokens and canonical symbols; the names a contract gets; the mutable maps |
| `QuoteRouter`, `QuoteConfluence` | `quote_router.py` | which quote wins, over every arrival order, with spaced and with any times |

Code that loops or updates state is a method or a class whose contract equates its result, or its whole
new state, with a function of the input or of the old state. The laws are lemmas about those functions.

## Main results

* **Long/short duality** (`SignalDuality.LongShortDuality`): a market turned upside down at a price level
  is traded the other way with the same confidence, by every strategy modelled and by their composites.
  Rounding is part of the statement: the level is an even number of ten-thousandths, since rounding commutes
  with reflection at no other. Where a strategy is
  not symmetric the exact condition is given: SUPERTREND when both of its tests fire, MOMENTUM_BREAKOUT and
  ATR_BREAKOUT when their RSI is rounded to 0.0, which they read as missing, on one side of the mirror. A
  composite of dual rules flips; one with a rule that is not dual may still, when others decide it.
* **Strategies and composites** (`SignalMeaning`, `CompositeMeaning`): for every strategy modelled, on every
  market, exactly when it buys and sells and with what confidence, in terms of the lines that overtake each
  other and the levels that are cleared; for composites of any rules, which of them must agree in each mode.
* **Indicators**: RSI never forgets but for its rounding; +DI and -DI share 100; ADX entries sit at the
  right bars exactly when no bar loses its indicators, and range over [0, 100 * period]; MACD line and
  histogram are exact differences in spite of rounding; DX is the relative distance of +DI and -DI.
* **Candles**: on time-sorted, well-formed candles, none of them at time 0, the two resamplers are one
  function; aggregating in steps is aggregating at once; volume is conserved; decoding telescopes; the
  second volume conversion loses volume exactly when its guard fires; parsing keeps every complete row's
  prices, sorted stably by time.
* **Cache**: stack inclusion, retention, agreement with an unbounded map, and transparency of the
  decorator exactly when keys separate results, which is worked out for the default keys.
* **Limiter**: the sliding-window bound over every window of every run, the retry promise, and exactly
  when the in-memory and the sorted-set limiter agree.
* **Kernels**: frame round trip and truncation; which names a contract gets and what the token index says
  about the load history;
  confluence of the overwrite rule, and exactly when it holds without spaced times, for a quote and for
  its time, sequence number and rank alone.

## Where the code differs from its documentation

The model follows the code.

* `indicators.py:296` promises an ADX of 0 to 100; the smoothing keeps a sum, so it reaches 100 * period,
  and the promise holds for period 1 only. The threshold of 25 asks for a mean of DX below 1.8.
* `signals.py:1325` reads an RSI of 0.0 as missing while `signals.py:1299` accepts 100, and RSI is rounded
  to two decimals before either. This breaks the symmetry of MOMENTUM_BREAKOUT where the average move is
  at least 19999 times the average move against it, and that of ATR_BREAKOUT (`signals.py:1001`, `1024`)
  where it breaks out against such an RSI.
* `signals.py:176-177` and `signals.py:405-406` ask for RSI and other confirmations of a cross. The code needs one
  confirmation of any kind for SMA_CROSSOVER and EMA_CROSSOVER and none for MACD: a jump is bought at an RSI of 100.
* `zebu_provider.py` converts volumes that it has already decoded: non-decreasing bar volumes are taken
  for running totals and shrink.
* The sorted-set limiter counts requests of one client at one instant once, the in-memory limiter each.
* `zerodha_provider.py:115` speaks of the token's top bits; the code uses the low byte. The documented sell
  depth ends at byte 191 of a 184-byte packet; the code reads the first level only, which is inside.
* The default key of `cached` joins the arguments with a colon, so argument lists that contain colons can
  share a key.
* `quote_router.py` compares times with a tolerance of 1 ms, which makes the rule non-transitive.

## Model

| member | source | states |
|---|---|---|
| `Rounding.Round2Ends` | backend/engines/indicators.py:127 | a percentage is rounded to 100 exactly from 99.995 on and to 0 exactly up to 0.005 |
| `Rounding.Round2Compares` | backend/engines/indicators.py:363 | comparing a value rounded to hundredths with a whole number is comparing the exact one half a hundredth away |
| `Rounding.Round4Reflects` | backend/engines/indicators.py:61-90 | reflection at an even number of ten-thousandths commutes with rounding, halves included |
| `Rounding.Round4ReflectsExactly` | backend/engines/indicators.py:61-90 | and at no other level does it |
| `Rounding.Round4Within` | backend/engines/indicators.py:86-90 | rounding does not leave an interval between ten-thousandths |
| `IndicatorEngine.Sma` | backend/engines/indicators.py:49-67 | the sliding sum yields, at every index, the rounded mean of the last `period` prices, and nothing before the first full window |
| `IndicatorEngine.Ema` | backend/engines/indicators.py:70-92 | the loop computes the recurrence on its own rounded values, seeded with the rounded first mean, padded with gaps |
| `IndicatorEngine.Rsi` | backend/engines/indicators.py:95-139 | entry i is the rounded index of Wilder's mean gain and mean loss over the whole prefix; the first `period` entries are missing |
| `IndicatorEngine.Macd` | backend/engines/indicators.py:142-189 | a result exists exactly when there are `slow + signal` prices; then all three lists have the input length and entry i of each is the line at bar i |
| `IndicatorEngine.SignalLine` | backend/engines/indicators.py:169-175 | the average taken over the present MACD values is put back at the right bars by front padding alone |
| `IndicatorEngine.Difference` | backend/engines/indicators.py:162-183 | rounded pointwise difference, missing wherever a side is missing |
| `IndicatorEngine.Atr` | backend/engines/indicators.py:261-286 | entry i is the rounded mean of the last `period` true ranges, rounded themselves but for the first |
| `IndicatorEngine.Wilders` | backend/engines/indicators.py:325-332 | Wilder's running sum for every index from `p - 1` on, gaps before |
| `IndicatorEngine.DirectionalMoves` | backend/engines/indicators.py:308-322 | the three lists of true ranges and directional moves are those of the bars |
| `IndicatorEngine.DirectionalIndicators` | backend/engines/indicators.py:334-355 | rounded +DI and -DI at every bar (missing where the smoothed range is missing or zero), and the DX values of the other bars in order |
| `IndicatorEngine.Adx` | backend/engines/indicators.py:289-367 | all three lists have one entry per bar, for inputs of any length |
| `IndicatorEngine.RollingHigh` | backend/engines/indicators.py:370-377 | maximum of the window that ends at each bar |
| `IndicatorEngine.RollingLow` | backend/engines/indicators.py:380-387 | minimum of the window that ends at each bar |
| `MovingAverageLaws.SmaMirrors` | backend/engines/indicators.py:49-67 | the average of prices reflected at an even number of ten-thousandths is the reflected average, rounding included |
| `MovingAverageLaws.EmaMirrors` | backend/engines/indicators.py:70-92 | reflection commutes with the rounded exponential recurrence |
| `MovingAverageLaws.EmaWithinPrices` | backend/engines/indicators.py:70-92 | the average does not leave an interval between ten-thousandths that holds the prices seen so far |
| `MovingAverageLaws.EmaPositive` | backend/engines/indicators.py:70-92 | prices of at least 0.0001 have an average of at least 0.0001, so the strategies' truth tests do not mistake it for a missing value |
| `MovingAverageLaws.MacdAlignment` | backend/engines/indicators.py:142-189 | for any periods: exactly which entries of the MACD, signal and histogram lists are present |
| `MovingAverageLaws.MacdGuardAdequate` | backend/engines/signals.py:412-424 | the length guard makes the last two MACD and signal entries present if and only if the fast period passes the same guard |
| `MovingAverageLaws.MacdMirrors` | backend/engines/indicators.py:142-189 | reflecting prices negates all three lines |
| `MovingAverageLaws.MacdValuesMirror` | backend/engines/indicators.py:169-171 | the same for the list the signal average is taken over |
| `RsiLaws.WilderNeverForgets` | backend/engines/indicators.py:114-137 | for periods of 2 or more, the smoothed mean of non-negative values is zero exactly when all of them were zero |
| `RsiLaws.RsiNeverForgets` | backend/engines/indicators.py:95-139 | for periods of 2 or more the index before rounding lies in [0, 100]; it is 100 exactly when prices have risen and never fallen, 0 exactly when they have fallen and never risen |
| `RsiLaws.RsiEnds` | backend/engines/indicators.py:95-139 | the rounded index is 100 exactly when prices have risen and the average gain is at least 19999 times the average loss, and 0 the other way round |
| `RsiLaws.RoundingForgets` | backend/engines/indicators.py:127 | a history with a fall whose rounded index is 100 |
| `RsiLaws.PeriodOneForgets` | backend/engines/indicators.py:95-139 | with period 1 the index is 100, 0 or 50 by the last change alone |
| `RsiLaws.ToRsiRange` | backend/engines/indicators.py:119-127 | range of the rounded index and exactly when it reaches either end |
| `RsiLaws.ToRsiIsRounded` | backend/engines/indicators.py:119-127 | all four branches are the exact index, rounded |
| `RsiLaws.ToRsiReflects` | backend/engines/indicators.py:119-127 | exchanging the averages turns r into 100 - r, rounding included |
| `RsiLaws.RsiReflects` | backend/engines/indicators.py:95-139 | reflected prices have the reflected index, for every period and bar |
| `AdxLaws.MovesWithinRange` | backend/engines/indicators.py:313-322 | at most one side moves and the moves together stay within the true range, for bars with low <= close <= high |
| `AdxLaws.SmoothedMovesWithinRange` | backend/engines/indicators.py:325-336 | Wilder smoothing keeps that inequality at every bar |
| `AdxLaws.DirectionalIndicatorsBounded` | backend/engines/indicators.py:342-351 | +DI and -DI, rounded, are never negative and together never exceed 100 |
| `AdxLaws.WilderSumMonotone` | backend/engines/indicators.py:325-332 | the smoothing preserves pointwise order |
| `AdxLaws.WilderSumAdds` | backend/engines/indicators.py:325-332 | the smoothing is additive |
| `AdxLaws.WilderSumIsScaledMean` | backend/engines/indicators.py:325-332 | the sum kept here is `period` times the mean RSI keeps |
| `AdxLaws.AdxBounded` | backend/engines/indicators.py:357-367 | every entry lies in [0, 100 * period] |
| `AdxLaws.AdxBoundAttained` | backend/engines/indicators.py:357-367 | on a pure uptrend whose +DI is not rounded to zero every entry equals 100 * period |
| `AdxLaws.DocumentedRangeExactly` | backend/engines/indicators.py:296 | the documented range of 0 to 100 holds on all well-formed bars if and only if the period is 1; bars that climb by one leave it for every other period |
| `AdxLaws.AdxIsScaledMean` | backend/engines/indicators.py:296 | an entry is `period` times Wilder's mean of DX, rounded, and that mean lies in [0, 100] |
| `AdxLaws.ThresholdOnMean` | backend/engines/signals.py:1530 | an entry reaches a whole threshold if and only if the mean of DX reaches a period-th of it, within rounding; 25 at period 14 is a mean below 1.8 |
| `AdxLaws.SmoothedRangeStaysPositive` | backend/engines/indicators.py:325-334 | for periods of 2 or more the smoothed true range never returns to zero |
| `AdxLaws.DxListIsSuffix` | backend/engines/indicators.py:342-355 | the bars skipped by the DX list form a prefix |
| `AdxLaws.AdxAligned` | backend/engines/indicators.py:357-365 | without gaps front padding puts the rounded Wilder sum of the DX values ending at bar i at index i, for any first bar with indicators |
| `AdxLaws.AlignedExactly` | backend/engines/indicators.py:342-365 | the bar that closes the first window of DX values has an entry if and only if no later bar loses its indicators |
| `AdxLaws.AdxStartsAfterTwoWindows` | backend/engines/indicators.py:357-365 | entries exist exactly from index 2 * period - 2 on |
| `AdxLaws.PeriodOneMisaligns` | backend/engines/indicators.py:342-365 | with period 1 a flat bar between two others shifts the list: an ADX where there is no DI |
| `AdxLaws.MisalignedBars` | backend/engines/indicators.py:342-365 | such bars exist |
| `AdxLaws.DiMirrors` | backend/engines/indicators.py:334-351 | upside down, +DI and -DI change places |
| `AdxLaws.AdxMirrors` | backend/engines/indicators.py:289-367 | ADX does not depend on the direction of the trend |
| `AdxLaws.AtrMirrors` | backend/engines/indicators.py:261-286 | nor does ATR |
| `IndicatorMeaning.SmaIsMean` | backend/engines/indicators.py:49-67 | the average taken `period` times is the sum of the last `period` prices, to within half a ten-thousandth each time |
| `IndicatorMeaning.EmaSeed` | backend/engines/indicators.py:82-84 | the exponential average starts within half a ten-thousandth of the mean of the first `period` prices |
| `IndicatorMeaning.EmaMoves` | backend/engines/indicators.py:76-90 | each price moves the average 2 / (period + 1) of the way to it, half the way for period 3, to within half a ten-thousandth |
| `IndicatorMeaning.WilderMoves` | backend/engines/indicators.py:131-135 | each value moves Wilder's mean a period-th of the way to it |
| `IndicatorMeaning.MacdIsDifference` | backend/engines/indicators.py:159-166 | MACD line plus slow average is the fast average exactly; the rounding of the line loses nothing |
| `IndicatorMeaning.HistogramIsDifference` | backend/engines/indicators.py:177-183 | histogram plus signal line is the MACD line exactly, and it exists where both do |
| `IndicatorMeaning.SignalFollowsMacd` | backend/engines/indicators.py:168-174 | the signal line moves 2 / (signal + 1) of the way to the MACD line of the same bar |
| `IndicatorMeaning.TrueRangeIsSpan` | backend/engines/indicators.py:317-322 | the true range is the span of the bar together with the close before it |
| `IndicatorMeaning.AtrIsMeanRange` | backend/engines/indicators.py:274-286 | ATR is the mean of the last true ranges to within the two roundings |
| `IndicatorMeaning.IndicatorsAreShares` | backend/engines/indicators.py:342-345 | +DI and -DI are the percentages of the smoothed range that moved up and down, to within half a hundredth |
| `IndicatorMeaning.DxIsRelativeDistance` | backend/engines/indicators.py:350-355 | DX times the sum of the two indicators is 100 times their distance; it is 0 if and only if they are equal, and 100 if and only if exactly one of them is 0 |
| `IndicatorMeaning.NoDirectionNoTrend` | backend/engines/indicators.py:350-365 | when +DI and -DI agree wherever they exist every ADX entry is 0 |
| `IndicatorMeaning.ZigzagAdx` | backend/engines/indicators.py:289-367 | four bars that go up and down by 1 have a first ADX entry of 133.33 at period 2 |
| `SignalEngine.ComputeCommon` | backend/engines/signals.py:103-134 | RSI, histogram, volume ratio and the two averages of the last bar, each missing under the source's own length guard |
| `SignalEngine.SmaCrossover` | backend/engines/signals.py:172-275 | returns the decision of the SMA cross and its confirmations on every market |
| `SignalEngine.EmaCrossover` | backend/engines/signals.py:644-733 | the same for the EMA cross, whose unconfirmed branches fall through |
| `SignalEngine.MacdStrategy` | backend/engines/signals.py:401-507 | the same for the MACD cross and its growing histogram |
| `SignalEngine.SupertrendStrategy` | backend/engines/signals.py:831-945 | the same for the channel re-entry, its averages, its bands and its volume test |
| `SignalEngine.AtrBreakoutStrategy` | backend/engines/signals.py:949-1039 | the same for the ATR trigger levels |
| `SignalEngine.MomentumBreakout` | backend/engines/signals.py:1253-1350 | the same for the breakout of the previous high or low, with RSI 0.0 read as missing |
| `SignalEngine.TrendStrengthStrategy` | backend/engines/signals.py:1478-1600 | the same for the trend test over ADX, both DIs and two averages |
| `SignalEngine.CompositeStrategy` | backend/engines/signals.py:1161-1249 | the combination of the rules' signals in any or all mode, ignored entries skipped; a rule of a type not modelled is any function of the market |
| `SignalEngine.Evaluate` | backend/engines/signals.py:57-99 | dispatch over the strategy types, unknown ones included; a type not modelled is any function of the market |
| `SignalMeaning.VolumeVotes` | backend/engines/signals.py:116-128 | the rounded volume ratio reaches 1.0, 1.1 or 1.2 if and only if twenty times the last volume reaches 0.005 less of the last twenty bars' volume |
| `SignalMeaning.MacdVotes` | backend/engines/signals.py:108-114 | the histogram is positive if and only if MACD(12, 26) is above its 9-bar signal line, on 35 closes or more |
| `SignalMeaning.SmaTrades` | backend/engines/signals.py:172-275 | buys if and only if the short average was at most the long one and is above it now, on 55 closes or more, and RSI in 35 to 70, MACD above its signal line or average volume confirms it; sells on the reverse with RSI in 30 to 65; 0.5 and 0.15 for each confirmation |
| `SignalMeaning.EmaTrades` | backend/engines/signals.py:644-733 | the same for exponential averages with RSI in 40 to 70 or 30 to 60 and volume 1.1 |
| `SignalMeaning.MacdTrades` | backend/engines/signals.py:401-507 | buys if and only if MACD was at most its signal line and is above it now, with or without confirmation, and sells on the reverse; 0.45 and 0.12 each for a lead larger than the deficit before it, RSI, the side of zero and volume |
| `SignalMeaning.SupertrendTrades` | backend/engines/signals.py:831-945 | buys if and only if a close at or below the middle of its bar minus `multiplier` average ranges is followed by one above that and two of four confirmations hold; sells on the reverse unless it buys |
| `SignalMeaning.AtrBreakoutTrades` | backend/engines/signals.py:949-1039 | buys if and only if the last close, and not the one before, is above each of the `period` highs before the last bar by `breakout` average ranges, with two of three confirmations; sells likewise below the lows |
| `SignalMeaning.MomentumTrades` | backend/engines/signals.py:1253-1350 | buys if and only if the last close, and not the one before, is above each of the `lookback` highs before the last bar, with one of three confirmations; sells likewise below the lows |
| `SignalMeaning.TrendTrades` | backend/engines/signals.py:1478-1600 | buys if and only if ADX(14) reaches the threshold and +DI leads -DI by the gap, with two of five confirmations; sells when -DI leads |
| `CompositeMeaning.UnanimousTrades` | backend/engines/signals.py:1161-1249 | ALL: buys if and only if some rule counts and every rule that counts buys, sells likewise, holds otherwise; the confidence is their mean and 0.1, at most 0.95 |
| `CompositeMeaning.AnyTrades` | backend/engines/signals.py:1161-1216 | ANY: buys if and only if some rule buys and none sells, sells likewise, holds otherwise; the confidence is the largest on that side and 0.05 for each further rule on it, at most 0.95 |
| `CrossoverMarkets.JumpIsBought` | backend/engines/signals.py:172-275 | 59 closes at 100 and one at 110 on even volume: SMA(10, 20) buys at 0.80, EMA(9, 21) at 0.65 and MACD(12, 26, 9) at 0.81 |
| `CrossoverMarkets.FallIsSold` | backend/engines/signals.py:172-275 | the same market upside down is sold at the same confidences |
| `SignalDuality.DecisionFlips` | backend/engines/signals.py:201-275 | exchanging the two setups flips a decision exactly when the setups do not fire together |
| `SignalDuality.CommonMirrors` | backend/engines/signals.py:103-134 | the common indicators of a reflected market are the reflected ones |
| `SignalDuality.SmaDuality` | backend/engines/signals.py:172-275 | reflection swaps the two setups, which never fire together |
| `SignalDuality.EmaDuality` | backend/engines/signals.py:644-733 | reflection swaps the two setups, which never fire together |
| `SignalDuality.MacdDuality` | backend/engines/signals.py:401-507 | reflection swaps the two setups, which never fire together |
| `SignalDuality.SupertrendDuality` | backend/engines/signals.py:831-945 | reflection swaps the two setups, for any multiplier |
| `SignalDuality.SupertrendBothFireOnlyWhenFlat` | backend/engines/signals.py:891-945 | both fire only with a positive multiplier and a previous ATR of zero |
| `SignalDuality.SupertrendNotDual` | backend/engines/signals.py:891-945 | a market that is its own mirror image and still buys: flat bars, then one wide bar |
| `SignalDuality.TrendStrengthDuality` | backend/engines/signals.py:1478-1600 | reflection swaps the two setups, which never fire together |
| `SignalDuality.AtrNonNegative` | backend/engines/indicators.py:261-286 | ATR, rounded, is never negative, even on bars with high below low |
| `SignalDuality.AtrBreakoutDualityExact` | backend/engines/signals.py:949-1039 | ATR_BREAKOUT flips if and only if the market does not break out against an RSI of 100 or 0.0 with another confirmation |
| `SignalDuality.AtrBreakoutNotDual` | backend/engines/signals.py:1014-1035 | a dip after a rise that is sold while its mirror image is not bought |
| `SignalDuality.TriggerFlips` | backend/engines/signals.py:991-1039 | the same for any prices, trigger levels and common indicators |
| `SignalDuality.MomentumDualityExact` | backend/engines/signals.py:1253-1350 | MOMENTUM_BREAKOUT flips if and only if the market is not a one-way breakout |
| `SignalDuality.OneWayBreakoutExactly` | backend/engines/signals.py:1299-1325 | that condition read off the closes: a breakout whose average move is at least 19999 times the average move against it |
| `SignalDuality.OneWayHistoryIsOneWay` | backend/engines/signals.py:1299-1325 | in particular every breakout of a history without a move against it |
| `SignalDuality.MomentumNotDual` | backend/engines/signals.py:1295-1348 | a step up that is bought while the step down is not sold |
| `SignalDuality.LeafDuality` | backend/engines/signals.py:57-99 | every strategy modelled flips in the mirror if and only if its condition holds |
| `SignalDuality.CombineFlips` | backend/engines/signals.py:1189-1249 | neither way of combining signals prefers a side |
| `SignalDuality.LongShortDuality` | backend/engines/signals.py:57-99 | for closes at least 0.0001 inside 0 and the mirror level, every strategy modelled trades the reflected market the other way with the same confidence when it is dual, and so does every composite of dual rules, rules of any other type included that flip on it |
| `CandleAggregation.AggregateBy` | backend/providers/zebu_provider.py:1691-1730 | the loop with its pending bar computes the run-by-run merge, rows without time or with bad fields skipped |
| `CandleAggregation.AggregateIntraday` | backend/providers/zebu_provider.py:1685-1730 | the whole function, width guard included |
| `CandleAggregation.AggregationConservesVolume` | backend/providers/zebu_provider.py:1691-1730 | the total volume is unchanged, in any order |
| `CandleAggregation.MergeAssociative` | backend/providers/zebu_provider.py:1722-1725 | merging bars is associative |
| `CandleAggregation.AggregationsCompose` | backend/providers/zebu_provider.py:1691-1730 | for any two nested bucketings, aggregating twice is aggregating once; time order is not needed |
| `CandleAggregation.ResolutionsCompose` | backend/providers/zebu_provider.py:1685-1730 | a minutes and then a * b minutes is a * b minutes, for every a and every b >= 1, from raw rows to rows |
| `CandleAggregation.AggregationSummarises` | backend/providers/zebu_provider.py:1691-1730 | on time-sorted bars the output is strictly increasing and each bar has the open, close, extremes and volume of its bucket's candles |
| `CandleResampling.ResampleBy` | backend/providers/alice_blue_provider.py:960-983 | after the loop the dictionary holds exactly one bar for each bucket seen, each the summary of its candles in arrival order, and the total volume |
| `CandleResampling.ResampleCandles` | backend/providers/alice_blue_provider.py:956-985 | on input in any order: strictly increasing times, summaries of the buckets, total volume kept |
| `CandleResampling.StoreKeepsSummaries` | backend/providers/alice_blue_provider.py:969-983 | one candle, new bucket or old, keeps that invariant |
| `CandleResampling.StoreChangesVolume` | backend/providers/alice_blue_provider.py:969-985 | storing under a key changes the sorted listing's volume by what it adds and replaces |
| `CandleResampling.AscendingSummarises` | backend/providers/alice_blue_provider.py:985 | sorting the dictionary's values gives strictly increasing times and loses no bar |
| `CandleResampling.BarsAligned` | backend/providers/alice_blue_provider.py:967 | bar times are multiples of the width and a bar covers exactly the candles of its half-open interval |
| `CandleResampling.BarExtremes` | backend/providers/alice_blue_provider.py:980-981 | a bar's high and low are attained and bound all of its candles |
| `CandleResampling.BarEnds` | backend/providers/alice_blue_provider.py:969-985 | a bar opens with the first candle listed in its bucket and closes with the last |
| `CandleResampling.TimedExactly` | backend/providers/alice_blue_provider.py:963-966 | the candles resampled are those with a time other than 0 |
| `CandleAggregation.ParsedExactly` | backend/providers/zebu_provider.py:1696-1712 | rows that do not convert are skipped and the others kept |
| `CandleResampling.ResamplersAgree` | backend/providers/alice_blue_provider.py:956-985 | whatever the dictionary resampler returns on sorted, well-formed candles is the streaming aggregator's output |
| `CandleResampling.ResampleBothWays` | backend/providers/zebu_provider.py:1685-1730 | both implementations run side by side return the same bars for every interval |
| `Candles.SummariesUnique` | backend/providers/alice_blue_provider.py:956-985 | strictly increasing bars that summarise the buckets are determined by the candles |
| `Candles.BucketsNest` | backend/providers/zebu_provider.py:1707 | the wide bucket of a narrow bucket's start is the wide bucket of its times, for times of either sign |
| `VolumeDecoding.ResolveBarVolume` | backend/providers/zebu_provider.py:1517-1561 | a decoded volume is never negative |
| `VolumeDecoding.FallbackIsFirst` | backend/providers/zebu_provider.py:1551-1561 | without interval or cumulative volume the first positive alternative field decides, and open interest only when there is none |
| `VolumeDecoding.DecodingTelescopes` | backend/providers/zebu_provider.py:1517-1561 | over any rows: no negative bar, and the sum is the stated volumes plus the last reading of each non-decreasing run |
| `VolumeDecoding.DecodingFrom` | backend/providers/zebu_provider.py:1603-1650 | the same from any remembered reading |
| `VolumeDecoding.CumulativeFeed` | backend/providers/zebu_provider.py:1517-1561 | with cumulative readings only, the session totals are the whole sum |
| `VolumeDecoding.OneSession` | backend/providers/zebu_provider.py:1517-1561 | a session without a reset adds up to its last reading |
| `VolumeDecoding.ConvertMonotonicVolumesToDeltas` | backend/providers/zebu_provider.py:1564-1590 | the loop and its guards compute the deltas of successive positive readings and leave other lists and other fields alone |
| `VolumeDecoding.ConvertedTotal` | backend/providers/zebu_provider.py:1564-1590 | the converted total is the last positive reading plus the plateau readings |
| `VolumeDecoding.ConversionConservesExactly` | backend/providers/zebu_provider.py:1564-1590 | the total is kept if and only if the guard leaves the list alone, and never grows |
| `VolumeDecoding.ConversionInvertsRunningTotals` | backend/providers/zebu_provider.py:1564-1590 | three or more positive bars are recovered from their running totals |
| `VolumeDecoding.ConversionActsExactly` | backend/providers/zebu_provider.py:1564-1590 | the conversion changes a list if and only if at least three volumes are positive, these never fall and some of them rises |
| `CandleParsing.ParseCandles` | backend/providers/zebu_provider.py:1592-1683 | the fold, the sort and the second conversion together |
| `CandleParsing.KeptIsDecoded` | backend/providers/zebu_provider.py:1602-1664 | on complete rows the fold carries the decoded volumes and the threaded reading |
| `CandleParsing.SortByTimePermutes` | backend/providers/zebu_provider.py:1682 | sorting rearranges the candles and drops none |
| `CandleParsing.SortByTimeSorts` | backend/providers/zebu_provider.py:1682 | and puts them in time order |
| `CandleParsing.ParsingConservesExactly` | backend/providers/zebu_provider.py:1592-1683 | the parsed total is the decoded total if and only if the decoded volumes do not look cumulative |
| `CandleParsing.ParsedSessionTotal` | backend/providers/zebu_provider.py:1592-1683 | in terms of the feed: the total is its session total under the same condition |
| `CandleParsing.RunningTotalFeed` | backend/providers/zebu_provider.py:1592-1683 | a feed of running totals comes back as its bars if and only if the bars do not look cumulative |
| `CandleParsing.RisingFeedIsLost` | backend/providers/zebu_provider.py:1592-1683 | four rows with readings 10, 30, 60, 100 are parsed to four bars of 10 instead of 10, 20, 30, 40 |
| `CandlePrices.ParsingKeepsPrices` | backend/providers/zebu_provider.py:1643-1683 | the candles, in time order, have the times and prices of exactly the rows that have them all, as often as the feed does, and in feed order among equal times |
| `CandlePrices.RowByRow` | backend/providers/zebu_provider.py:1643-1683 | complete rows in time order become candles one by one, each price from its own field |
| `CandlePrices.KeptDecodesTimedRows` | backend/providers/zebu_provider.py:1633-1664 | a row with a time but without prices gives no candle, yet its cumulative reading counts for the next |
| `SmartCacheObject.SmartCache.constructor` | backend/cache/smart_cache.py:51-58 | an empty cache with a 60-second cleanup interval |
| `SmartCacheObject.SmartCache.Get` | backend/cache/smart_cache.py:60-77 | the value and the whole new state of a look-up: expired entries removed, hits moved to the recent end |
| `SmartCacheObject.SmartCache.Set` | backend/cache/smart_cache.py:79-101 | the whole new state: periodic cleanup, replacement, eviction of the oldest at capacity |
| `SmartCacheObject.SmartCache.Delete` | backend/cache/smart_cache.py:103-108 | removes the entry and says whether there was one |
| `SmartCacheObject.SmartCache.InvalidatePrefix` | backend/cache/smart_cache.py:110-115 | removes every key with the prefix, keeps the rest in order, counts the removed |
| `SmartCacheObject.SmartCache.Clear` | backend/cache/smart_cache.py:117-119 | empties the store and nothing else |
| `SmartCacheObject.SmartCache.Cleanup` | backend/cache/smart_cache.py:121-128 | keeps exactly the entries that have not expired, in order |
| `SmartCacheObject.SmartCache.CachedCall` | backend/cache/smart_cache.py:142-170 | answer and new state of one decorated call, its look-up and its store each at its own time |
| `CacheSpec.RunKeepsValid` | backend/cache/smart_cache.py:60-128 | on every run the size never exceeds the limit and no key occurs twice |
| `CacheLaws.StackInclusion` | backend/cache/smart_cache.py:60-128 | on every timed trace the smaller store stays a subsequence of the larger, with equal values and expiries |
| `CacheLaws.NoBeladyAnomaly` | backend/cache/smart_cache.py:60-101 | every hit of a smaller cache is a hit of a larger one with the same value |
| `CacheLaws.Retention` | backend/cache/smart_cache.py:60-101 | an entry just set or hit is still returned while fewer than `max_size` other keys were set or hit and it is not overwritten, deleted or expired |
| `CacheLaws.EvictionNeedsRecentKeys` | backend/cache/smart_cache.py:89-93 | an entry is evicted only when as many other keys as the cache holds were used since |
| `CacheLaws.RunAgrees` | backend/cache/smart_cache.py:60-128 | on every run each stored entry is the one last set under its key and not removed since |
| `CacheLaws.HitsAreCurrent` | backend/cache/smart_cache.py:60-101 | a hit returns the value last set under the key, before its expiry |
| `CacheEffects.SetThenGet` | backend/cache/smart_cache.py:79-101 | after `set`, at any limit, the key is found with its value until its time is over; every other key as before, but for the oldest of a full store when the key is new |
| `CacheEffects.GetThenGet` | backend/cache/smart_cache.py:60-77 | a look-up changes no later look-up |
| `CacheEffects.RemoveThenGet` | backend/cache/smart_cache.py:103-119 | the three ways of removal hide exactly the key named, the keys with the prefix, or all |
| `CachedFunction.CallIsTransparent` | backend/cache/smart_cache.py:153-170 | on a consistent cache a call answers like the function and leaves the cache consistent |
| `CachedFunction.TransparentAmongOthers` | backend/cache/smart_cache.py:153-170 | and still does after any other operations that store only the function's values |
| `CachedFunction.WrapperIsHarmless` | backend/cache/smart_cache.py:166-170 | where keys separate results, whatever a wrapper stores is right for every argument with that key |
| `CachedFunction.InterleavingsAreTransparent` | backend/cache/smart_cache.py:153-170 | any interleaving of the look-ups and stores of overlapping calls leaves the next call answering like the function |
| `CachedFunction.TransparentExactly` | backend/cache/smart_cache.py:142-178 | the decorator answers like the function on every sequence of calls if and only if equal keys mean equal results |
| `CachedFunction.DefaultKeysExactly` | backend/cache/smart_cache.py:157-159 | default keys are equal if and only if the arguments, cut at their colons, have the same pieces in a row |
| `CachedFunction.DefaultTransparentExactly` | backend/cache/smart_cache.py:142-170 | with default keys the decorator answers like the function on every sequence of calls if and only if arguments with the same pieces share their result |
| `CachedFunction.DefaultKeysCollide` | backend/cache/smart_cache.py:157-159 | one argument with a colon has the key of two |
| `CachedFunction.DefaultKeysSeparate` | backend/cache/smart_cache.py:157-159 | argument lists without colons have equal default keys exactly when they are equal |
| `RateLimiterObjects.MemoryLimiter.Check` | backend/core/rate_limiter.py:207-232 | verdict and whole new store of the in-memory check, refused requests included |
| `RateLimiterObjects.MemoryLimiter.Cleanup` | backend/core/rate_limiter.py:234-243 | removes exactly the keys without a request in the longest window |
| `RateLimiterObjects.RedisLimiter.Check` | backend/core/rate_limiter.py:165-205 | verdict and new sorted set with its deadline |
| `RateLimitLaws.RunTracks` | backend/core/rate_limiter.py:207-243 | on every run of all clients, cleanup included, the store of each key shows what its full history of acceptances would |
| `RateLimitLaws.WindowBound` | backend/core/rate_limiter.py:207-243 | no half-open interval of one window holds more than `max_requests` accepted requests of a key |
| `RateLimitLaws.RefusedExactlyWhenFull` | backend/core/rate_limiter.py:207-232 | a request is refused if and only if the window ending with it is full |
| `RateLimitLaws.RefusalWindow` | backend/core/rate_limiter.py:219-223 | at a refusal exactly `max_requests` requests count and the oldest sets the wait |
| `RateLimitLaws.RetryPromise` | backend/core/rate_limiter.py:219-223 | a refused client that sends nothing else is accepted exactly from the moment the oldest leaves; the promised wait ends after it by at most one second |
| `RateLimitLaws.ShippedLimitsUsable` | backend/core/rate_limiter.py:31-52 | the shipped limits and the default meet the conditions of these laws for every path |
| `RateLimitLaws.CountsTheWindow` | backend/core/rate_limiter.py:217-232 | the count reported is that of the accepted requests in the window, and the request itself if accepted |
| `RateLimitLaws.FirstPrefixDecides` | backend/core/rate_limiter.py:104-111 | the first entry of the table that begins the path decides, and the default when none does |
| `RateLimitLaws.AdminLimits` | backend/core/rate_limiter.py:41-42 | the sign-in of administrators has its own limit of 5 and their other requests one of 180 |
| `RateLimitLaws.CleanedExactly` | backend/core/rate_limiter.py:234-243 | the cleanup keeps exactly the keys with a request within the longest window |
| `RateLimitLaws.IdleKeysForgotten` | backend/core/rate_limiter.py:227-243 | a request accepted more than 300 seconds after the last cleanup leaves only such keys |
| `RateLimitRedis.RangeRemovalKeepsRecent` | backend/core/rate_limiter.py:176-185 | removing scores up to the cutoff keeps the recent ones, at the boundary too |
| `RateLimitRedis.LookSeesRecent` | backend/core/rate_limiter.py:165-205 | the expiry of the whole set at window + 10 never hides a score that counts |
| `RateLimitRedis.RecentOnce` | backend/core/rate_limiter.py:181-198 | pruning a list and then dropping repetitions is the same as pruning the list without repetitions |
| `RateLimitRedis.RunShows` | backend/core/rate_limiter.py:165-201 | as long as the verdicts agree, the set shows each key's accepted times without repetitions, for every interleaving of clients |
| `RateLimitRedis.LimitersAgreeExactly` | backend/core/rate_limiter.py:165-232 | both limiters give the same verdict, retry time and count all through a run if and only if no request finds two acceptances of its client at one instant in its window |
| `RateLimitRedis.LimitersAgree` | backend/core/rate_limiter.py:165-232 | in particular on every run in which no client sends two requests at one instant |
| `RateLimitRedis.BurstNeverRefused` | backend/core/rate_limiter.py:197-198 | requests at one instant share a member, so no burst is ever refused by the sorted set |
| `RateLimitRedis.BurstRefusedInMemory` | backend/core/rate_limiter.py:207-232 | the in-memory limiter refuses the same burst at its limit |
| `KiteFrames.ParseKitePacket` | backend/providers/zerodha_provider.py:82-168 | the packet reader with its three sizes and its two depth loops, for packets of any length |
| `KiteFrames.ParseKiteBinary` | backend/providers/zerodha_provider.py:171-193 | for any bytes, the quotes of the packets the frame splits into; all reads are in bounds |
| `KiteFrames.FrameRoundTrip` | backend/providers/zerodha_provider.py:171-193 | an encoded frame, with any bytes behind it, splits into the packets it was made of |
| `KiteFrames.TruncationGivesPrefix` | backend/providers/zerodha_provider.py:171-193 | cutting any bytes short only drops quotes from the end |
| `KiteFrames.CutInsidePacket` | backend/providers/zerodha_provider.py:171-193 | a frame cut inside packet k yields exactly the quotes of the packets before k |
| `KiteFrames.DecodableExactly` | backend/providers/zerodha_provider.py:106-113 | a packet has a quote exactly when it has eight bytes and a price that is not zero |
| `KiteFrames.QuotePacketRoundTrip` | backend/providers/zerodha_provider.py:110-150 | a 44-byte packet written in the documented field order is read back field by field |
| `KiteFrames.FullPacketExtendsQuote` | backend/providers/zerodha_provider.py:152-166 | a 184-byte packet reads like its first 44 bytes except for open interest and the best depth levels |
| `KiteFrames.PacketHead` | backend/providers/zerodha_provider.py:110-117 | token and price are big-endian, the price in paise, and the last byte of the token names the exchange |
| `KiteFrames.SizeClasses` | backend/providers/zerodha_provider.py:106-168 | a packet of any other length is read like its first 8, 44 or 184 bytes |
| `SymbolMapsObject.SymbolMaps.constructor` | backend/providers/symbol_mapper.py:86-121 | the seed loop leaves the maps that loading the ten indices would leave |
| `SymbolMapsObject.SymbolMaps.LoadZebuContracts` | backend/providers/symbol_mapper.py:216-296 | all five maps after a batch are those of the whole history of usable rows, and the count |
| `SymbolMapsObject.SymbolMaps.AddRow` | backend/providers/symbol_mapper.py:259-291 | one usable row extends that history in all five maps, legacy tickers included |
| `SymbolMapsObject.SymbolMaps.AddTokenEntry` | backend/providers/symbol_mapper.py:264-273 | the token part of a row: clash, bare entry and scoped entry |
| `SymbolMapsObject.SymbolMaps.AddNames` | backend/providers/symbol_mapper.py:274-289 | the trading and base symbols of a row |
| `SymbolMapsObject.SymbolMaps.ZebuTokenToCanonical` | backend/providers/symbol_mapper.py:182-203 | the look-up order, blank tokens and exchanges included |
| `SymbolMapper.BareEntryExactly` | backend/providers/symbol_mapper.py:264-271 | over every load history, seeds included, in which no row writes the token's key as its scoped key: a bare token resolves to c if and only if all rows with it had canonical c, and is ambiguous if and only if two differ |
| `SymbolMapper.BareEntryThroughout` | backend/providers/symbol_mapper.py:264-273 | bare entry and ambiguity mark say so all through a history if and only if every row whose scoped key is the token repeats its one canonical symbol |
| `SymbolMapper.AmbiguousForever` | backend/providers/symbol_mapper.py:201-202 | an ambiguous token never resolves bare again, whatever is loaded |
| `SymbolMapper.ScopedEntryExactly` | backend/providers/symbol_mapper.py:273 | a pair's entry is that of its last row throughout a history if and only if every row that writes its key for something else repeats the canonical symbol |
| `SymbolMapper.PlainTokensNeverCollide` | backend/providers/symbol_mapper.py:273 | in particular whenever no token contains a `|` |
| `SymbolMapper.PlainLookUpsAreHarmless` | backend/providers/symbol_mapper.py:182-203 | then every look-up meets the conditions below |
| `SymbolMapper.PipeTokenPassesForPair` | backend/providers/symbol_mapper.py:264-273 | a token with a `|` can create the entry of a pair that was never loaded |
| `SymbolMapper.ResolvesExactly` | backend/providers/symbol_mapper.py:182-203 | what a look-up returns in terms of the rows loaded, for any token and exchange whose keys no other row writes with another symbol |
| `SymbolMapper.TicksComeBack` | backend/providers/symbol_mapper.py:259-273 | when no other row writes its key: with an exchange the ticks of a subscribed symbol always resolve, and to that symbol if and only if the last row for its exchange and token has it; without an exchange, if and only if all rows with the token have it |
| `SymbolMapper.ForwardIsLatest` | backend/providers/symbol_mapper.py:259-289 | a canonical symbol maps to the last row that names it, a renamed share's old ticker included |
| `SymbolMapper.TradingIsLatest` | backend/providers/symbol_mapper.py:274-289 | a trading symbol means what the last row that sets it says, or else the seeds |
| `SymbolMapper.BaseIsLatest` | backend/providers/symbol_mapper.py:276-288 | a symbol without suffix means the canonical symbol of the last row that has it |
| `SymbolMapper.HistoryIsClean` | backend/providers/symbol_mapper.py:232-236 | whatever was loaded, stored tokens are stripped and exchanges stripped and upper case |
| `SymbolMapper.SeedTokensNext` | backend/providers/symbol_mapper.py:106-113 | writing a seed without the ambiguity test is the same as loading it as a row |
| `ContractNames.SeedResolves` | backend/providers/symbol_mapper.py:86-113 | before anything is loaded each of the ten index tokens resolves to its index, with its exchange or without |
| `ContractNames.SkippedExactly` | backend/providers/symbol_mapper.py:232-239 | a contract is skipped if and only if its symbol or its token is blank |
| `ContractNames.TokenResolves` | backend/providers/symbol_mapper.py:232-273 | after a batch on any history the token of its last contract resolves, on its exchange, to the canonical symbol it states in capitals, or else to its symbol with .NS on NSE (also when no exchange is given), in capitals on the commodity and derivative exchanges, and with .BO on any other |
| `ContractNames.SymbolLeadsBack` | backend/providers/symbol_mapper.py:241-263 | that symbol leads back to token, exchange and trading symbol, which is the one stated, or else the symbol with -EQ for shares and in capitals for the others |
| `ContractNames.RelianceResolves` | backend/providers/symbol_mapper.py:219-220 | the documented contract resolves to RELIANCE.NS with trading symbol RELIANCE-EQ, in whatever case and between blanks it is asked for |
| `ContractNames.RenamedShare` | backend/providers/symbol_mapper.py:278-289 | loading TMPV on NSE serves the old ticker's canonical, bare and trading symbols |
| `QuoteRouter.CloseOutranksLive` | backend/market/quote_router.py:11-34 | which sources beat the live feeds while the market is open and while it is closed, in any letter case |
| `QuoteRouter.OpenOrder` | backend/market/quote_router.py:11-22 | the order of all sources while the market is open, an unknown one level with `rest` |
| `QuoteRouter.ClosedOrder` | backend/market/quote_router.py:24-34 | and once it is closed, with the live feeds behind any unknown one |
| `QuoteRouter.LevelQuotes` | backend/market/quote_router.py:98-104 | between level quotes a different `price` replaces, `ltp` counts only where it is missing or zero, and a quote without either replaces nothing |
| `QuoteRouter.SpacedPairRule` | backend/market/quote_router.py:66-106 | without the tolerance band the rule is: later time, higher sequence number, better source, or another price at an equal key |
| `QuoteRouter.SettlesOnHighest` | backend/market/quote_router.py:66-106 | with times equal or more than 1 ms apart, any arrival order ends with a quote nothing is above, at the last price reported with its key |
| `QuoteRouter.ArrivalOrderIsIrrelevant` | backend/market/quote_router.py:66-106 | two orders of the same spaced quotes end with the same time, sequence number and source rank |
| `QuoteConfluence.PairRule` | backend/market/quote_router.py:77-106 | for any times: better by time, sequence number and source, or level and a different price; two quotes are level if and only if neither is better |
| `QuoteConfluence.AlwaysSettlesExactly` | backend/market/quote_router.py:66-106 | for any times: every arrival order ends with a quote if and only if it wins both ways against each other quote |
| `QuoteConfluence.DominatesExactly` | backend/market/quote_router.py:66-106 | which in terms of the fields is to be better than each other quote, or level with one that has no price while it has one |
| `QuoteConfluence.KeyAlwaysSettlesExactly` | backend/market/quote_router.py:66-106 | every arrival order ends with a quote's time, sequence number and rank if and only if each quote with others is worse, or level and without a price while some quote with these has one |
| `QuoteConfluence.CloseTimesCycle` | backend/market/quote_router.py:79-89 | at any time, three quotes 0.8 ms apart beat each other in a circle, so three orders end three ways |

## Left out

- Binary floating point: arithmetic is over exact reals, and `round` rounds them to two or four decimals with halves to even. Products and sums in the source may differ from these in their last bits.
- Periods of zero or less: the source divides by the period or indexes with it; the model asks for periods of at least 1 where the source needs them. A cache size below 1 and a limit of no requests are out for the same reason: eviction from an empty store and the oldest of no requests raise errors.
- The RSI, BOLLINGER, VWAP_BOUNCE, STOCHASTIC_REVERSION and MEAN_REVERSION_BB strategies: asymmetric by design or by the same missing-value test; with them Bollinger bands, their square root, VWAP and the stochastic oscillator.
- `SignalEngine.Evaluate`: these five types enter as arbitrary functions of the market, so that composites may contain them; what they compute is not modelled.
- `SignalDuality.LeafDuality`: for these five types the condition is the flip itself.
- `SignalDuality.LongShortDuality`: one way for composites; a rule that is not dual need not decide the outcome.
- Signal texts, `indicator_values`, logging and cache statistics: they do not influence any result modelled.
- Strategy parameters of other types, and price lists with missing or non-numeric entries.
- `SignalEngine.CompositeStrategy`: rules carry their parsed parameters, and rules of the five types are arbitrary functions; a composite inside a composite is skipped as in the source.
- Clocks: each cache operation and each limiter check takes one `now`; the source may read the clock more than once within a call.
- `SmartCacheObject.SmartCache.CachedCall`: the awaited function is its result; the look-up before it and the store after it are separate steps with their own times and nothing runs between them in this contract; `InterleavingsAreTransparent` covers overlapping calls. Exceptions of the function and keyword arguments are left out.
- Cache values are not None, as the decorator and its callers take None for a miss.
- `CandleParsing.ParseCandles`: a row arrives with its time and prices already converted, or missing when the conversion fails; parsing of time formats and numbers is left out, as is the debug log of index bars.
- `RateLimiterObjects.RedisLimiter.Check`: the sorted set is modelled by its scores, its removal by score range and its deadline; Redis failures, which fall back on the in-memory check, and the two round trips between which other processes may act are left out.
- Client addresses, forwarded headers and the HTTP answer of the limiter; the path table is modelled.
- `canonical_to_zebu`, `redis_price_lookup_symbols` and the other readers of the symbol maps: look-ups without state of their own.
- Letter case, blanks and digits outside ASCII in `strip`, `upper` and `lower`.
- The table of renamed tickers has one entry, which is modelled as such.
- Quote times arrive parsed: the fallback to the current time for quotes without one is left out, and sequence numbers and prices are numbers. A quote is stored under the source it arrived with.
- The quote coordinator, which numbers quotes itself and copies them to mirrored symbols; snapshots and stale detection.
- WebSocket and REST clients, routes, models, database, configuration and workers: input and output around the parts modelled.
