/** Laws of Wilder's relative strength index, before and after it is rounded to hundredths. */
module RsiLaws {
  import opened Prelude
  import opened Rounding
  import opened IndicatorSpec

  ghost predicate AnyPositive(xs: seq<real>, i: nat)
    requires i < |xs|
  {
    exists j :: 0 <= j <= i && xs[j] > 0.0
  }

  /** Wilder smoothing with a period of at least 2 never forgets: the mean is zero only if all was zero. */
  lemma {:induction false} WilderNeverForgets(xs: seq<real>, period: nat, i: nat)
    requires 2 <= period && period - 1 <= i < |xs|
    requires forall j :: 0 <= j < |xs| ==> xs[j] >= 0.0
    ensures WilderMean(xs, period, i) >= 0.0
    ensures WilderMean(xs, period, i) > 0.0 <==> AnyPositive(xs, i)
  {
    if i == period - 1 {
      SumPositive(xs[..period]);
      assert forall j :: 0 <= j <= i ==> xs[..period][j] == xs[j];
    } else {
      WilderNeverForgets(xs, period, i - 1);
      WilderStepSign(WilderMean(xs, period, i - 1), xs[i], period);
    }
  }

  lemma WilderStepSign(mean: real, x: real, period: nat)
    requires 2 <= period && mean >= 0.0 && x >= 0.0
    ensures WilderStep(mean, x, period) >= 0.0
    ensures WilderStep(mean, x, period) > 0.0 <==> mean > 0.0 || x > 0.0
  {
    var q := period as real - 1.0;
    MulSign(mean, q);
    DivSign(mean * q + x, period as real);
  }

  /** The index before it is rounded. */
  function ExactRsi(gain: real, loss: real): real
    requires gain >= 0.0 && loss >= 0.0
  {
    if loss == 0.0 && gain == 0.0 then 50.0
    else if loss == 0.0 then 100.0
    else if gain == 0.0 then 0.0
    else RsiOfRatio(gain, loss)
  }

  lemma ToRsiIsRounded(gain: real, loss: real)
    requires gain >= 0.0 && loss >= 0.0
    ensures ToRsi(gain, loss) == Round2(ExactRsi(gain, loss))
  {
    Round2OfInt(0);
    Round2OfInt(50);
    Round2OfInt(100);
  }

  lemma ExactRsiRange(gain: real, loss: real)
    requires gain >= 0.0 && loss >= 0.0
    ensures 0.0 <= ExactRsi(gain, loss) <= 100.0
    ensures ExactRsi(gain, loss) == 100.0 <==> gain > 0.0 && loss == 0.0
    ensures ExactRsi(gain, loss) == 0.0 <==> gain == 0.0 && loss > 0.0
  {
    if gain > 0.0 && loss > 0.0 {
      var rs := gain / loss;
      assert rs > 0.0;
      assert 0.0 < 100.0 / (1.0 + rs) < 100.0;
    }
  }

  /** How many times larger one average must be for the index to be rounded to the end of its scale. */
  const OVERWHELMING := 19999.0

  /** The index is 100 or 0 exactly when one average is at least 19999 times the other. */
  lemma ToRsiRange(gain: real, loss: real)
    requires gain >= 0.0 && loss >= 0.0
    ensures 0.0 <= ToRsi(gain, loss) <= 100.0
    ensures ToRsi(gain, loss) == 100.0 <==> gain > 0.0 && gain >= OVERWHELMING * loss
    ensures ToRsi(gain, loss) == 0.0 <==> loss > 0.0 && loss >= OVERWHELMING * gain
  {
    if gain > 0.0 && loss > 0.0 {
      ExactRsiRange(gain, loss);
      Round2Ends(RsiOfRatio(gain, loss));
      RatioForm(gain, loss);
      QuotientCompares(loss, gain + loss, 0.00005);
      QuotientCompares(loss, gain + loss, 0.99995);
    }
  }

  lemma QuotientCompares(x: real, t: real, c: real)
    requires t > 0.0
    ensures x / t <= c <==> x <= c * t
    ensures x / t >= c <==> x >= c * t
  {
    var q := x / t;
    assert q * t == x;
    if q < c {
      MulStrict(q, c, t);
    } else if q > c {
      MulStrict(c, q, t);
    }
  }

  predicate RisesAt(prices: seq<real>, j: nat)
    requires 1 <= j < |prices|
  {
    prices[j] > prices[j - 1]
  }

  predicate FallsAt(prices: seq<real>, j: nat)
    requires 1 <= j < |prices|
  {
    prices[j] < prices[j - 1]
  }

  /** A bar-to-bar rise (or fall) among the first i changes. */
  ghost predicate HasRise(prices: seq<real>, i: nat)
    requires i < |prices|
  {
    exists j :: 1 <= j <= i && RisesAt(prices, j)
  }

  ghost predicate HasFall(prices: seq<real>, i: nat)
    requires i < |prices|
  {
    exists j :: 1 <= j <= i && FallsAt(prices, j)
  }

  lemma GainAverageSign(prices: seq<real>, period: nat, i: nat)
    requires 2 <= period <= i < |prices|
    ensures WilderMean(Gains(prices), period, i - 1) >= 0.0
    ensures WilderMean(Gains(prices), period, i - 1) > 0.0 <==> HasRise(prices, i)
  {
    WilderNeverForgets(Gains(prices), period, i - 1);
    GainsShowRises(prices, i);
  }

  lemma LossAverageSign(prices: seq<real>, period: nat, i: nat)
    requires 2 <= period <= i < |prices|
    ensures WilderMean(Losses(prices), period, i - 1) >= 0.0
    ensures WilderMean(Losses(prices), period, i - 1) > 0.0 <==> HasFall(prices, i)
  {
    WilderNeverForgets(Losses(prices), period, i - 1);
    LossesShowFalls(prices, i);
  }

  lemma GainsShowRises(prices: seq<real>, i: nat)
    requires 1 <= i < |prices|
    ensures HasRise(prices, i) <==> AnyPositive(Gains(prices), i - 1)
  {
    if HasRise(prices, i) {
      var j :| 1 <= j <= i && RisesAt(prices, j);
      ChangeAt(prices, j);
    }
    if AnyPositive(Gains(prices), i - 1) {
      var k :| 0 <= k <= i - 1 && Gains(prices)[k] > 0.0;
      ChangeAt(prices, k + 1);
    }
  }

  lemma LossesShowFalls(prices: seq<real>, i: nat)
    requires 1 <= i < |prices|
    ensures HasFall(prices, i) <==> AnyPositive(Losses(prices), i - 1)
  {
    if HasFall(prices, i) {
      var j :| 1 <= j <= i && FallsAt(prices, j);
      ChangeAt(prices, j);
    }
    if AnyPositive(Losses(prices), i - 1) {
      var k :| 0 <= k <= i - 1 && Losses(prices)[k] > 0.0;
      ChangeAt(prices, k + 1);
    }
  }

  lemma ChangeAt(prices: seq<real>, j: nat)
    requires 1 <= j < |prices|
    ensures Gains(prices)[j - 1] > 0.0 <==> RisesAt(prices, j)
    ensures Losses(prices)[j - 1] > 0.0 <==> FallsAt(prices, j)
  {
  }

  /** The two averages behind the index at bar i. */
  function AvgGain(prices: seq<real>, period: nat, i: nat): (gain: real)
    requires 1 <= period <= i < |prices|
    ensures gain >= 0.0
  {
    WilderMeanNonNegative(Gains(prices), period, i - 1);
    WilderMean(Gains(prices), period, i - 1)
  }

  function AvgLoss(prices: seq<real>, period: nat, i: nat): (loss: real)
    requires 1 <= period <= i < |prices|
    ensures loss >= 0.0
  {
    WilderMeanNonNegative(Losses(prices), period, i - 1);
    WilderMean(Losses(prices), period, i - 1)
  }

  /**
   * For a period of at least 2 the index before rounding keeps the whole history: it is 100 exactly
   * when prices have risen and never fallen, and 0 exactly when they have fallen and never risen.
   */
  lemma RsiNeverForgets(prices: seq<real>, period: nat, i: nat)
    requires 2 <= period <= i < |prices|
    ensures var exact := ExactRsi(AvgGain(prices, period, i), AvgLoss(prices, period, i));
      && RsiAt(prices, period, i) == Some(Round2(exact))
      && 0.0 <= exact <= 100.0
      && (exact == 100.0 <==> HasRise(prices, i) && !HasFall(prices, i))
      && (exact == 0.0 <==> HasFall(prices, i) && !HasRise(prices, i))
  {
    GainAverageSign(prices, period, i);
    LossAverageSign(prices, period, i);
    ExactRsiRange(AvgGain(prices, period, i), AvgLoss(prices, period, i));
    ToRsiIsRounded(AvgGain(prices, period, i), AvgLoss(prices, period, i));
  }

  /**
   * What the rounded index keeps: it is 100 exactly when prices have risen and the average gain is at
   * least 19999 times the average loss, and 0 the other way round. A one-way history is at its end.
   */
  lemma RsiEnds(prices: seq<real>, period: nat, i: nat)
    requires 2 <= period <= i < |prices|
    ensures var gain, loss := AvgGain(prices, period, i), AvgLoss(prices, period, i);
      && RsiAt(prices, period, i).Some?
      && 0.0 <= RsiAt(prices, period, i).value <= 100.0
      && (RsiAt(prices, period, i).value == 100.0 <==> HasRise(prices, i) && gain >= OVERWHELMING * loss)
      && (RsiAt(prices, period, i).value == 0.0 <==> HasFall(prices, i) && loss >= OVERWHELMING * gain)
    ensures HasRise(prices, i) && !HasFall(prices, i) ==> RsiAt(prices, period, i) == Some(100.0)
    ensures HasFall(prices, i) && !HasRise(prices, i) ==> RsiAt(prices, period, i) == Some(0.0)
  {
    GainAverageSign(prices, period, i);
    LossAverageSign(prices, period, i);
    ToRsiRange(AvgGain(prices, period, i), AvgLoss(prices, period, i));
  }

  /** With period 2, after a fall of 0.01 and a rise of 1000, the rounded index is 100 in spite of the fall. */
  lemma RoundingForgets(prices: seq<real>)
    requires |prices| == 3 && prices[0] == 100.0 && prices[1] == 99.99 && prices[2] == 1099.99
    ensures HasFall(prices, 2) && RsiAt(prices, 2, 2) == Some(100.0)
  {
    assert FallsAt(prices, 1) && RisesAt(prices, 2);
    SmallFallAverages(prices);
    RsiEnds(prices, 2, 2);
  }

  lemma SmallFallAverages(prices: seq<real>)
    requires |prices| == 3 && prices[0] == 100.0 && prices[1] == 99.99 && prices[2] == 1099.99
    ensures AvgGain(prices, 2, 2) == 500.0 && AvgLoss(prices, 2, 2) == 0.005
  {
    var gains, losses := Gains(prices), Losses(prices);
    assert gains[0] == 0.0 && gains[1] == 1000.0 && losses[0] == 0.01 && losses[1] == 0.0;
    MeanOfTwo(gains, 0.0, 1000.0);
    MeanOfTwo(losses, 0.01, 0.0);
  }

  lemma MeanOfTwo(xs: seq<real>, a: real, b: real)
    requires |xs| == 2 && xs[0] == a && xs[1] == b
    ensures WilderMean(xs, 2, 1) == (a + b) / 2.0
  {
    assert xs == [a, b] && xs[..2] == xs && xs[..1] == [a] && [a][..0] == [];
    assert Sum([a]) == a;
    assert Sum(xs) == a + b;
  }

  lemma PeriodOneIsLastValue(xs: seq<real>, i: nat)
    requires i < |xs|
    ensures WilderMean(xs, 1, i) == xs[i]
  {
    if i == 0 {
      assert xs[..1][..0] == [] && Sum(xs[..1]) == xs[0];
    } else {
      PeriodOneStep(WilderMean(xs, 1, i - 1), xs[i]);
    }
  }

  lemma PeriodOneStep(mean: real, x: real)
    ensures WilderStep(mean, x, 1) == x
  {
  }

  /** With period 1 the index forgets everything but the direction of the last change. */
  lemma PeriodOneForgets(prices: seq<real>, i: nat)
    requires 1 <= i < |prices|
    ensures RsiAt(prices, 1, i) == Some(
      if prices[i] > prices[i - 1] then 100.0 else if prices[i] < prices[i - 1] then 0.0 else 50.0)
  {
    PeriodOneIsLastValue(Gains(prices), i - 1);
    PeriodOneIsLastValue(Losses(prices), i - 1);
  }

  /** Exchanging gains and losses reflects the index about 50. */
  lemma ToRsiReflects(gain: real, loss: real)
    requires gain >= 0.0 && loss >= 0.0
    ensures ToRsi(gain, loss) + ToRsi(loss, gain) == 100.0
  {
    if gain > 0.0 && loss > 0.0 {
      RatioReflects(gain, loss);
      Round2Reflects(RsiOfRatio(gain, loss));
    }
  }

  lemma RatioReflects(gain: real, loss: real)
    requires gain > 0.0 && loss > 0.0
    ensures RsiOfRatio(loss, gain) == 100.0 - RsiOfRatio(gain, loss)
  {
    var t := gain + loss;
    RatioForm(gain, loss);
    RatioForm(loss, gain);
    assert loss + gain == t;
    DivSum(gain, loss, t);
    DivUnique(t, t, 1.0);
  }

  lemma RatioForm(gain: real, loss: real)
    requires gain > 0.0 && loss > 0.0
    ensures RsiOfRatio(gain, loss) == 100.0 - 100.0 * (loss / (gain + loss))
  {
    var t := gain + loss;
    var d := 1.0 + gain / loss;
    var x := 100.0 / d;
    assert d * loss == t;
    assert x * d == 100.0;
    assert x * t == (x * d) * loss;
    DivUnique(100.0 * loss, t, x);
    MulDiv(100.0, loss, t);
  }

  /** Mirroring the prices turns every gain into a loss and the index r into 100 - r. */
  lemma RsiReflects(xs: seq<real>, ys: seq<real>, period: nat, i: nat, k: real)
    requires 1 <= period <= i < |xs| == |ys|
    requires forall j :: 0 <= j < |xs| ==> ys[j] == k - xs[j]
    ensures RsiAt(xs, period, i).Some? && RsiAt(ys, period, i).Some?
    ensures RsiAt(ys, period, i).value == 100.0 - RsiAt(xs, period, i).value
  {
    assert Gains(ys) == Losses(xs);
    assert Losses(ys) == Gains(xs);
    WilderMeanNonNegative(Gains(xs), period, i - 1);
    WilderMeanNonNegative(Losses(xs), period, i - 1);
    ToRsiReflects(WilderMean(Gains(xs), period, i - 1), WilderMean(Losses(xs), period, i - 1));
  }
}
