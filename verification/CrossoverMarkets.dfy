/** A market that the crossover strategies of backend/engines/signals.py buy, worked out to the confidence. */
module CrossoverMarkets {
  import opened Prelude
  import opened Rounding
  import opened IndicatorSpec
  import opened MovingAverageLaws
  import opened RsiLaws
  import opened SignalSpec
  import opened SignalDuality
  import opened IndicatorMeaning
  import opened SignalMeaning

  /** 59 closes at 100 and a last one at 110, on constant volume. */
  const JUMP := Market(
    seq(60, i => if i == 59 then 110.0 else 100.0),
    seq(60, i => if i == 59 then 110.0 else 100.0),
    seq(60, i => if i == 59 then 110.0 else 100.0),
    seq(20, i => 1000))

  predicate Jumps(prices: seq<real>) {
    |prices| == 60 && prices[59] == 110.0 && forall j :: 0 <= j < 59 ==> prices[j] == 100.0
  }

  lemma JumpSma(prices: seq<real>, period: nat)
    requires Jumps(prices) && 2 <= period <= 59
    ensures SmaAt(prices, period, 58) == Some(100.0)
    ensures SmaAt(prices, period, 59) == Some(Round4((100.0 * period as real + 10.0) / period as real))
  {
    MeanWithin(prices[59 - period..59], 100.0, 100.0);
    Round4OfTick(100.0);
    var window := prices[60 - period..60];
    SumBounds(window[..period - 1], 100.0, 100.0);
    assert 100.0 * (period - 1) as real + 110.0 == 100.0 * period as real + 10.0;
  }

  lemma JumpEma(prices: seq<real>, period: nat)
    requires Jumps(prices) && 1 <= period <= 59
    ensures EmaValue(prices, period, 58) == 100.0
    ensures EmaValue(prices, period, 59) == EmaStep(100.0, 110.0, period)
  {
    EmaWithinPrices(prices, period, 58, 100.0, 100.0);
  }

  lemma JumpSteps()
    ensures EmaStep(100.0, 110.0, 9) == 102.0
    ensures EmaStep(100.0, 110.0, 12) == 101.5385
    ensures EmaStep(100.0, 110.0, 21) == 100.9091
    ensures EmaStep(100.0, 110.0, 26) == 100.7407
    ensures EmaStep(0.0, 0.7978, 9) == 0.1596
  {
    StepIs(100.0, 110.0, 9, 1020000);
    StepIs(100.0, 110.0, 12, 1015385);
    StepIs(100.0, 110.0, 21, 1009091);
    StepIs(100.0, 110.0, 26, 1007407);
    StepIs(0.0, 0.7978, 9, 1596);
  }

  /** A step of the average, from where it leads to within half of a ten-thousandth. */
  lemma StepIs(previous: real, price: real, period: nat, n: int)
    requires var share := period as real + 1.0;
      Abs(10000.0 * (2.0 * (price - previous)) + (previous * 10000.0 - n as real) * share) < 0.5 * share
    ensures EmaStep(previous, price, period) == n as real / 10000.0
  {
    var exact := Blend(previous, price, period);
    BlendMoves(previous, price, period);
    var move, share := exact - previous, period as real + 1.0;
    Scales(move, share);
    CloseTo(10000.0 * move, previous * 10000.0 - n as real, share);
    NearestIs(exact * 10000.0, n);
  }

  lemma Scales(move: real, share: real)
    ensures 10000.0 * move * share == 10000.0 * (move * share)
  {
  }

  lemma CloseTo(move: real, rest: real, share: real)
    requires share > 0.0 && Abs(move * share + rest * share) < 0.5 * share
    ensures -0.5 < move + rest < 0.5
  {
    var d := move + rest;
    Distributes(move, rest, share);
    if d >= 0.5 {
      MulMono(0.5, d, share);
    } else if d <= -0.5 {
      MulMono(d, -0.5, share);
    }
  }

  lemma Distributes(x: real, y: real, c: real)
    ensures (x + y) * c == x * c + y * c
  {
  }

  lemma {:induction false} FlatMacd(prices: seq<real>, i: nat)
    requires Jumps(prices) && 25 <= i <= 58
    ensures MacdAt(prices, 12, 26, i) == Some(0.0)
  {
    EmaWithinPrices(prices, 12, i, 100.0, 100.0);
    EmaWithinPrices(prices, 26, i, 100.0, 100.0);
    Round4OfTick(0.0);
  }

  /** MACD leaves its signal line, 0.0 one bar ago and 0.6382 above it now. */
  lemma JumpMacd(prices: seq<real>)
    requires Jumps(prices)
    ensures MacdAt(prices, 12, 26, 59) == Some(0.7978)
    ensures SignalAt(prices, 12, 26, 9, 59) == Some(0.1596)
    ensures Lead(prices, 12, 26, 9, 58) == Some(0.0)
    ensures Lead(prices, 12, 26, 9, 59) == Some(0.6382)
  {
    JumpEma(prices, 12);
    JumpEma(prices, 26);
    JumpSteps();
    Round4OfTick(0.7978);
    FlatMacd(prices, 58);
    var line := MacdValues(prices, 12, 26);
    forall j | 0 <= j <= 33 ensures line[j] == 0.0 {
      FlatMacd(prices, 25 + j);
    }
    EmaWithinPrices(line, 9, 33, 0.0, 0.0);
  }

  lemma JumpVotes()
    ensures Supported(JUMP)
  {
    assert RisesAt(JUMP.closes, 59);
    assert forall j :: 1 <= j <= 59 ==> !FallsAt(JUMP.closes, j);
    RsiEnds(JUMP.closes, 14, 59);
    JumpMacd(JUMP.closes);
    assert JUMP.volumes[0..] == JUMP.volumes;
    ConstantTotal(JUMP.volumes, 1000);
  }

  lemma {:induction false} ConstantTotal(xs: seq<int>, v: int)
    requires forall j :: 0 <= j < |xs| ==> xs[j] == v
    ensures SumInt(xs) == v * |xs|
  {
    if xs != [] {
      ConstantTotal(xs[..|xs| - 1], v);
    }
  }

  /** The golden cross is bought, on a positive histogram and average volume but an extreme RSI. */
  lemma JumpIsBought()
    ensures LeafSignal(SmaCrossover(10, 20), JUMP) == Signal(Buy, 0.8)
    ensures LeafSignal(EmaCrossover(9, 21), JUMP) == Signal(Buy, 0.65)
    ensures LeafSignal(Macd(12, 26, 9), JUMP) == Signal(Buy, 0.81)
  {
    JumpVotes();
    SmaBuys(JUMP);
    EmaBuys(JUMP);
    MacdBuys(JUMP);
  }

  predicate Supported(m: Market) {
    && Jumps(m.closes) && !RsiWithin(m, 30.0, 70.0) && MacdAboveSignal(m)
    && VolumeReaches(m, 1.0) && !VolumeReaches(m, 1.1)
  }

  lemma SmaBuys(m: Market)
    requires Supported(m)
    ensures LeafSignal(SmaCrossover(10, 20), m) == Signal(Buy, 0.8)
  {
    JumpSma(m.closes, 10);
    JumpSma(m.closes, 20);
    Round4OfTick(101.0);
    Round4OfTick(100.5);
    assert SmaOvertakes(m.closes, 10, 20);
    assert SmaUp(m) == 2;
    SmaTrades(m, 10, 20);
  }

  lemma EmaBuys(m: Market)
    requires Supported(m)
    ensures LeafSignal(EmaCrossover(9, 21), m) == Signal(Buy, 0.65)
  {
    JumpEma(m.closes, 9);
    JumpEma(m.closes, 21);
    JumpSteps();
    assert EmaOvertakes(m.closes, 9, 21);
    assert EmaUp(m) == 1;
    EmaTrades(m, 9, 21);
  }

  lemma MacdBuys(m: Market)
    requires Supported(m)
    ensures LeafSignal(Macd(12, 26, 9), m) == Signal(Buy, 0.81)
  {
    JumpMacd(m.closes);
    assert MacdUp(m, 0.0, 0.6382, 0.7978) == 3;
    MacdTrades(m, 12, 26, 9);
  }

  /** The jump upside down is sold with the same confidence. */
  lemma FallIsSold()
    ensures LeafSignal(SmaCrossover(10, 20), MirrorMarket(JUMP, 200.0)) == Signal(Sell, 0.8)
    ensures LeafSignal(EmaCrossover(9, 21), MirrorMarket(JUMP, 200.0)) == Signal(Sell, 0.65)
    ensures LeafSignal(Macd(12, 26, 9), MirrorMarket(JUMP, 200.0)) == Signal(Sell, 0.81)
  {
    JumpIsBought();
    FallSold(SmaCrossover(10, 20));
    FallSold(EmaCrossover(9, 21));
    FallSold(Macd(12, 26, 9));
  }

  lemma FallSold(leaf: Leaf)
    requires leaf.PositivePeriods() && (leaf.SmaCrossover? || leaf.EmaCrossover? || leaf.Macd?)
    ensures LeafSignal(leaf, MirrorMarket(JUMP, 200.0)) == Flip(LeafSignal(leaf, JUMP))
  {
    LeafDuality(leaf, JUMP, 200.0);
  }
}
