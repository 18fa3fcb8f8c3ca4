/** Laws of Wilder's directional system: bounds, alignment of the padded list, and mirroring. */
module AdxLaws {
  import opened Prelude
  import opened Rounding
  import opened IndicatorSpec

  // ---------- Wilder sums ----------

  lemma SumStepMonotone(s: real, t: real, x: real, y: real, period: nat)
    requires 1 <= period && s <= t && x <= y
    ensures WilderSumStep(s, x, period) <= WilderSumStep(t, y, period)
  {
    var p := period as real;
    var d := t - s;
    DivSum(s, d, p);
    DivAtMost(d, p);
  }

  lemma DivAtMost(d: real, p: real)
    requires d >= 0.0 && p >= 1.0
    ensures 0.0 <= d / p <= d
  {
    var q := d / p;
    assert q * p == d;
    if q < 0.0 {
      MulStrict(q, 0.0, p);
    }
    if q > d {
      MulStrict(d, q, p);
      MulMono(1.0, p, d);
    }
  }

  /** Wilder smoothing preserves pointwise order. */
  lemma {:induction false} WilderSumMonotone(xs: seq<real>, ys: seq<real>, period: nat, i: nat)
    requires 1 <= period && period - 1 <= i < |xs| && |xs| == |ys|
    requires forall j :: 0 <= j < |xs| ==> xs[j] <= ys[j]
    ensures WilderSum(xs, period, i) <= WilderSum(ys, period, i)
  {
    if i == period - 1 {
      SumMonotone(xs[..period], ys[..period]);
    } else {
      WilderSumMonotone(xs, ys, period, i - 1);
      SumStepMonotone(WilderSum(xs, period, i - 1), WilderSum(ys, period, i - 1), xs[i], ys[i], period);
    }
  }

  lemma {:induction false} SumMonotone(xs: seq<real>, ys: seq<real>)
    requires |xs| == |ys| && forall j :: 0 <= j < |xs| ==> xs[j] <= ys[j]
    ensures Sum(xs) <= Sum(ys)
  {
    if xs != [] {
      SumMonotone(xs[..|xs| - 1], ys[..|xs| - 1]);
    }
  }

  /** Wilder smoothing is additive. */
  lemma {:induction false} WilderSumAdds(xs: seq<real>, ys: seq<real>, zs: seq<real>, period: nat, i: nat)
    requires 1 <= period && period - 1 <= i < |xs| && |xs| == |ys| == |zs|
    requires forall j :: 0 <= j < |xs| ==> zs[j] == xs[j] + ys[j]
    ensures WilderSum(zs, period, i) == WilderSum(xs, period, i) + WilderSum(ys, period, i)
  {
    if i == period - 1 {
      SumAdds(xs[..period], ys[..period], zs[..period]);
    } else {
      WilderSumAdds(xs, ys, zs, period, i - 1);
      DivSum(WilderSum(xs, period, i - 1), WilderSum(ys, period, i - 1), period as real);
    }
  }

  lemma {:induction false} SumAdds(xs: seq<real>, ys: seq<real>, zs: seq<real>)
    requires |xs| == |ys| == |zs|
    requires forall j :: 0 <= j < |xs| ==> zs[j] == xs[j] + ys[j]
    ensures Sum(zs) == Sum(xs) + Sum(ys)
  {
    if xs != [] {
      var n := |xs| - 1;
      SumAdds(xs[..n], ys[..n], zs[..n]);
    }
  }

  /** s is m taken `period` times. */
  predicate Times(s: real, m: real, period: nat) {
    s == m * period as real
  }

  /** ADX keeps sums where RSI keeps means: the two smoothings differ by the factor `period`. */
  lemma {:induction false} WilderSumIsScaledMean(xs: seq<real>, period: nat, i: nat)
    requires 1 <= period && period - 1 <= i < |xs|
    ensures Times(WilderSum(xs, period, i), WilderMean(xs, period, i), period)
  {
    if i == period - 1 {
      var s, p := Sum(xs[..period]), period as real;
      assert Mean(xs[..period]) == s / p;
      assert s / p * p == s;
    } else {
      WilderSumIsScaledMean(xs, period, i - 1);
      StepScales(WilderSum(xs, period, i - 1), WilderMean(xs, period, i - 1), xs[i], period);
    }
  }

  lemma StepScales(s: real, mean: real, x: real, period: nat)
    requires 1 <= period && Times(s, mean, period)
    ensures Times(WilderSumStep(s, x, period), WilderStep(mean, x, period), period)
  {
    var p := period as real;
    DivUnique(s, p, mean);
    assert mean * (p - 1.0) == mean * p - mean;
  }

  /** A constant input c has the constant Wilder sum c * period. */
  lemma {:induction false} WilderSumConstant(xs: seq<real>, period: nat, i: nat, c: real)
    requires 1 <= period && period - 1 <= i < |xs|
    requires forall j :: 0 <= j < |xs| ==> xs[j] == c
    ensures WilderSum(xs, period, i) == c * period as real
  {
    if i == period - 1 {
      SumBounds(xs[..period], c, c);
    } else {
      WilderSumConstant(xs, period, i - 1, c);
      DivUnique(c * period as real, period as real, c);
    }
  }

  lemma WilderSumWithin(xs: seq<real>, period: nat, i: nat, c: real)
    requires 1 <= period && period - 1 <= i < |xs|
    requires forall j :: 0 <= j < |xs| ==> 0.0 <= xs[j] <= c
    ensures 0.0 <= WilderSum(xs, period, i) <= c * period as real
  {
    var floor := seq(|xs|, j => 0.0);
    var ceiling := seq(|xs|, j => c);
    WilderSumMonotone(floor, xs, period, i);
    WilderSumMonotone(xs, ceiling, period, i);
    WilderSumConstant(floor, period, i, 0.0);
    WilderSumConstant(ceiling, period, i, c);
  }

  // ---------- Bounds of the directional indicators ----------

  /** One bar's directional movement never exceeds its true range, and at most one side moves. */
  lemma MovesWithinRange(bars: Bars, i: nat)
    requires bars.Complete() && bars.Ordered() && i < |bars.closes|
    ensures PlusMove(bars, i) >= 0.0 && MinusMove(bars, i) >= 0.0
    ensures PlusMove(bars, i) == 0.0 || MinusMove(bars, i) == 0.0
    ensures PlusMove(bars, i) + MinusMove(bars, i) <= TrueRange(bars, i)
  {
  }

  lemma SmoothedMovesWithinRange(bars: Bars, period: nat, i: nat)
    requires bars.Complete() && bars.Ordered() && 1 <= period && period - 1 <= i < |bars.closes|
    ensures WilderSum(PlusMoves(bars), period, i) >= 0.0
    ensures WilderSum(MinusMoves(bars), period, i) >= 0.0
    ensures WilderSum(PlusMoves(bars), period, i) + WilderSum(MinusMoves(bars), period, i)
      <= WilderSum(TrueRanges(bars), period, i)
  {
    var n := |bars.closes|;
    var plus, minus, trs := PlusMoves(bars), MinusMoves(bars), TrueRanges(bars);
    var both := seq(n, j requires 0 <= j < n => plus[j] + minus[j]);
    var zero := seq(n, j => 0.0);
    forall j | 0 <= j < n
      ensures 0.0 <= plus[j] && 0.0 <= minus[j] && both[j] <= trs[j]
    {
      MovesWithinRange(bars, j);
    }
    WilderSumConstant(zero, period, i, 0.0);
    WilderSumMonotone(zero, plus, period, i);
    WilderSumMonotone(zero, minus, period, i);
    WilderSumAdds(plus, minus, both, period, i);
    WilderSumMonotone(both, trs, period, i);
  }

  lemma SharesOfRange(plus: real, minus: real, range: real)
    requires 0.0 <= plus && 0.0 <= minus && plus + minus <= range && range != 0.0
    ensures Share(plus, range) >= 0.0 && Share(minus, range) >= 0.0
    ensures Share(plus, range) + Share(minus, range) <= 100.0
  {
    DivSign(100.0 * plus, range);
    DivSign(100.0 * minus, range);
    DivSum(100.0 * plus, 100.0 * minus, range);
    DivBound(100.0 * plus + 100.0 * minus, range, 100.0);
  }

  /** Two percentages that share 100 still do when both are rounded. */
  lemma RoundedShares(plus: real, minus: real)
    requires plus >= 0.0 && minus >= 0.0 && plus + minus <= 100.0
    ensures Round2(plus) >= 0.0 && Round2(minus) >= 0.0 && Round2(plus) + Round2(minus) <= 100.0
  {
    Round2Monotone(0.0, plus);
    Round2Monotone(0.0, minus);
    Round2OfInt(0);
    Round2Monotone(plus, 100.0 - minus);
    Round2Reflects(minus);
  }

  /** +DI and -DI share the true range: rounded, each is non-negative and together they stay within 100. */
  lemma DirectionalIndicatorsBounded(bars: Bars, period: nat, i: nat)
    requires bars.Complete() && bars.Ordered() && 1 <= period && i < |bars.closes|
    requires DiDefined(bars, period, i)
    ensures PlusDi(bars, period, i) >= 0.0 && MinusDi(bars, period, i) >= 0.0
    ensures PlusDi(bars, period, i) + MinusDi(bars, period, i) <= 100.0
  {
    SmoothedMovesWithinRange(bars, period, i);
    var plus, minus := WilderSum(PlusMoves(bars), period, i), WilderSum(MinusMoves(bars), period, i);
    var range := WilderSum(TrueRanges(bars), period, i);
    SharesOfRange(plus, minus, range);
    RoundedShares(Share(plus, range), Share(minus, range));
  }

  lemma DxRange(plus: real, minus: real)
    requires plus >= 0.0 && minus >= 0.0
    ensures 0.0 <= DxOf(plus, minus) <= 100.0
    ensures minus == 0.0 && plus > 0.0 ==> DxOf(plus, minus) == 100.0
  {
    var s := plus + minus;
    if s > 0.0 {
      DivBound(Abs(plus - minus), s, 1.0);
      DivSign(Abs(plus - minus), s);
      if minus == 0.0 && plus > 0.0 {
        DivUnique(plus, plus, 1.0);
      }
    }
  }

  lemma {:induction false} DxListBounded(bars: Bars, period: nat, n: nat)
    requires bars.Complete() && bars.Ordered() && 1 <= period && n <= |bars.closes|
    ensures forall j :: 0 <= j < |DxList(bars, period, n)| ==> 0.0 <= DxList(bars, period, n)[j] <= 100.0
  {
    if n > 0 {
      DxListBounded(bars, period, n - 1);
      if DiDefined(bars, period, n - 1) {
        DirectionalIndicatorsBounded(bars, period, n - 1);
        DxRange(PlusDi(bars, period, n - 1), MinusDi(bars, period, n - 1));
      }
    }
  }

  /** Every ADX entry lies between 0 and 100 times the period. */
  lemma AdxBounded(bars: Bars, period: nat, i: nat)
    requires bars.Complete() && bars.Ordered() && 1 <= period && i < |bars.closes|
    requires AdxAt(bars, period, i).Some?
    ensures 0.0 <= AdxAt(bars, period, i).value <= 100.0 * period as real
  {
    var n := |bars.closes|;
    var dxs := DxList(bars, period, n);
    DxListBounded(bars, period, n);
    WilderSumWithin(dxs, period, i - (n - |dxs|), 100.0);
    RoundedWithin(WilderSum(dxs, period, i - (n - |dxs|)), 100 * period);
  }

  lemma RoundedWithin(x: real, n: nat)
    requires 0.0 <= x <= n as real
    ensures 0.0 <= Round2(x) <= n as real
  {
    Round2Monotone(0.0, x);
    Round2Monotone(x, n as real);
    Round2OfInt(0);
    Round2OfInt(n);
  }

  // ---------- Alignment of the padded list ----------

  predicate KeepsDi(bars: Bars, period: nat, i: nat)
    requires bars.Complete() && 1 <= period && 0 < i < |bars.closes|
  {
    DiDefined(bars, period, i - 1) ==> DiDefined(bars, period, i)
  }

  /** Smoothed true range is never zero again once it has been positive. */
  ghost predicate RangeNeverReturnsToZero(bars: Bars, period: nat)
    requires bars.Complete() && 1 <= period
  {
    forall i :: 0 < i < |bars.closes| ==> KeepsDi(bars, period, i)
  }

  lemma TrueRangeNonNegative(bars: Bars, i: nat)
    requires bars.Complete() && i < |bars.closes| && bars.lows[0] <= bars.highs[0]
    ensures TrueRange(bars, i) >= 0.0
  {
  }

  /** For a period of at least 2 the smoothed true range stays positive once it is positive. */
  lemma SmoothedRangeStaysPositive(bars: Bars, period: nat)
    requires bars.Complete() && 2 <= period
    requires |bars.closes| > 0 ==> bars.lows[0] <= bars.highs[0]
    ensures RangeNeverReturnsToZero(bars, period)
  {
    var trs := TrueRanges(bars);
    forall i | 0 < i < |bars.closes| && DiDefined(bars, period, i - 1)
      ensures KeepsDi(bars, period, i)
    {
      forall j | 0 <= j < |trs| ensures trs[j] >= 0.0 {
        TrueRangeNonNegative(bars, j);
      }
      WilderSumIsScaledMean(trs, period, i - 1);
      WilderSumIsScaledMean(trs, period, i);
      WilderMeanNonNegative(trs, period, i - 1);
      SumSign(WilderSum(trs, period, i - 1), WilderMean(trs, period, i - 1), period);
      PositiveMeanPersists(WilderMean(trs, period, i - 1), trs[i], period);
      SumSign(WilderSum(trs, period, i), WilderMean(trs, period, i), period);
    }
  }

  lemma SumSign(s: real, mean: real, period: nat)
    requires 1 <= period && Times(s, mean, period)
    ensures s > 0.0 <==> mean > 0.0
    ensures s == 0.0 <==> mean == 0.0
  {
    MulSign(mean, period as real);
  }

  lemma PositiveMeanPersists(mean: real, x: real, period: nat)
    requires 2 <= period && mean > 0.0 && x >= 0.0
    ensures WilderStep(mean, x, period) > 0.0
  {
    MulSign(mean, period as real - 1.0);
    DivSign(mean * (period as real - 1.0) + x, period as real);
  }

  /** Bar n - 1 has joined a DX list that is the bars from `start` on. */
  ghost predicate DxSuffix(bars: Bars, period: nat, n: nat, dxs: seq<real>)
    requires bars.Complete() && 1 <= period && |dxs| <= n <= |bars.closes|
  {
    var start := n - |dxs|;
    && (forall i :: 0 <= i < start ==> !DiDefined(bars, period, i))
    && (forall i :: start <= i < n ==> DiDefined(bars, period, i) && dxs[i - start] == Dx(bars, period, i))
  }

  lemma DxSuffixNext(bars: Bars, period: nat, n: nat, dxs: seq<real>)
    requires bars.Complete() && 1 <= period && |dxs| <= n < |bars.closes|
    requires RangeNeverReturnsToZero(bars, period) && DxSuffix(bars, period, n, dxs)
    ensures DxSuffix(bars, period, n + 1, if DiDefined(bars, period, n) then dxs + [Dx(bars, period, n)] else dxs)
  {
    if dxs != [] {
      assert DiDefined(bars, period, n - 1) && KeepsDi(bars, period, n);
    }
  }

  /** The bars without directional indicators form a prefix; the DX list is the rest, in order. */
  lemma {:induction false} DxListIsSuffix(bars: Bars, period: nat, n: nat)
    requires bars.Complete() && 1 <= period && n <= |bars.closes|
    requires RangeNeverReturnsToZero(bars, period)
    ensures DxSuffix(bars, period, n, DxList(bars, period, n))
  {
    if n > 0 {
      DxListIsSuffix(bars, period, n - 1);
      SuffixKept(bars, period, n - 1, n);
    }
  }

  lemma SuffixKept(bars: Bars, period: nat, m: nat, n: nat)
    requires bars.Complete() && 1 <= period && m + 1 == n <= |bars.closes|
    requires RangeNeverReturnsToZero(bars, period) && DxSuffix(bars, period, m, DxList(bars, period, m))
    ensures DxSuffix(bars, period, n, DxList(bars, period, n))
  {
    DxSuffixNext(bars, period, m, DxList(bars, period, m));
  }

  /** Wilder's sum of the DX values of bars start..i, written over the bars themselves. */
  function DxWilderSum(bars: Bars, period: nat, start: nat, i: nat): real
    requires bars.Complete() && 1 <= period && start + period - 1 <= i < |bars.closes|
    requires forall j :: start <= j <= i ==> DiDefined(bars, period, j)
    decreases i
  {
    if i == start + period - 1 then Sum(DxSlice(bars, period, start, i + 1))
    else WilderSumStep(DxWilderSum(bars, period, start, i - 1), Dx(bars, period, i), period)
  }

  function DxSlice(bars: Bars, period: nat, lo: nat, hi: nat): (dxs: seq<real>)
    requires bars.Complete() && 1 <= period && lo <= hi <= |bars.closes|
    requires forall j :: lo <= j < hi ==> DiDefined(bars, period, j)
    ensures |dxs| == hi - lo
  {
    seq(hi - lo, k requires 0 <= k < hi - lo => Dx(bars, period, lo + k))
  }

  /**
   * Front padding is right: entry i is the rounded Wilder sum of the DX values of the bars ending
   * exactly at bar i, where `start` is the first bar with directional indicators.
   */
  lemma AdxAligned(bars: Bars, period: nat, start: nat, i: nat)
    requires bars.Complete() && 1 <= period && LongEnough(bars, period) && i < |bars.closes|
    requires RangeNeverReturnsToZero(bars, period)
    requires start < |bars.closes| && DiDefined(bars, period, start)
    requires forall j :: 0 <= j < start ==> !DiDefined(bars, period, j)
    ensures forall j :: start <= j < |bars.closes| ==> DiDefined(bars, period, j)
    ensures AdxAt(bars, period, i) ==
      if i < start + period - 1 then None else Some(Round2(DxWilderSum(bars, period, start, i)))
  {
    var n := |bars.closes|;
    StartOfDx(bars, period, start);
    if start + period - 1 <= i {
      WilderSumOverBars(bars, period, start, DxList(bars, period, n), i);
    }
  }

  /** The first bar with directional indicators is where the DX list starts. */
  lemma StartOfDx(bars: Bars, period: nat, start: nat)
    requires bars.Complete() && 1 <= period && RangeNeverReturnsToZero(bars, period)
    requires start < |bars.closes| && DiDefined(bars, period, start)
    requires forall j :: 0 <= j < start ==> !DiDefined(bars, period, j)
    ensures |DxList(bars, period, |bars.closes|)| == |bars.closes| - start
    ensures DxSuffix(bars, period, |bars.closes|, DxList(bars, period, |bars.closes|))
    ensures forall j :: start <= j < |bars.closes| ==> DiDefined(bars, period, j)
  {
    var n := |bars.closes|;
    DxListIsSuffix(bars, period, n);
    var dxs := DxList(bars, period, n);
    assert |dxs| > 0 ==> DiDefined(bars, period, n - |dxs|);
  }

  lemma {:induction false} WilderSumOverBars(bars: Bars, period: nat, start: nat, dxs: seq<real>, i: nat)
    requires bars.Complete() && 1 <= period && start + period - 1 <= i < |bars.closes|
    requires |dxs| == |bars.closes| - start && DxSuffix(bars, period, |bars.closes|, dxs)
    ensures forall j :: start <= j < |bars.closes| ==> DiDefined(bars, period, j)
    ensures WilderSum(dxs, period, i - start) == DxWilderSum(bars, period, start, i)
    decreases i
  {
    if i == start + period - 1 {
      assert dxs[..period] == DxSlice(bars, period, start, i + 1);
    } else {
      WilderSumOverBars(bars, period, start, dxs, i - 1);
      assert dxs[i - start] == Dx(bars, period, i);
    }
  }

  /** A bar without directional indicators after the first with them leaves the DX list too short. */
  lemma {:induction false} DxCount(bars: Bars, period: nat, start: nat, gap: nat, n: nat)
    requires bars.Complete() && 1 <= period && start <= n <= |bars.closes| && start <= gap < |bars.closes|
    requires forall j :: 0 <= j < start ==> !DiDefined(bars, period, j)
    requires !DiDefined(bars, period, gap)
    ensures |DxList(bars, period, n)| <= n - start - if gap < n then 1 else 0
    decreases n
  {
    if n == start {
      NoDxYet(bars, period, start);
    } else {
      DxCount(bars, period, start, gap, n - 1);
    }
  }

  lemma {:induction false} NoDxYet(bars: Bars, period: nat, n: nat)
    requires bars.Complete() && 1 <= period && n <= |bars.closes|
    requires forall j :: 0 <= j < n ==> !DiDefined(bars, period, j)
    ensures DxList(bars, period, n) == []
  {
    if n > 0 {
      NoDxYet(bars, period, n - 1);
    }
  }

  /**
   * Alignment, exactly: the first bar that closes a window of DX values has an ADX entry if and only
   * if no bar loses its indicators again. Otherwise every entry is shifted towards the end.
   */
  lemma AlignedExactly(bars: Bars, period: nat, start: nat)
    requires bars.Complete() && 1 <= period && LongEnough(bars, period) && start + period <= |bars.closes|
    requires DiDefined(bars, period, start)
    requires forall j :: 0 <= j < start ==> !DiDefined(bars, period, j)
    ensures AdxAt(bars, period, start + period - 1).Some? <==> RangeNeverReturnsToZero(bars, period)
  {
    if RangeNeverReturnsToZero(bars, period) {
      AdxAligned(bars, period, start, start + period - 1);
    } else {
      TooFewDx(bars, period, start);
      var dxs := DxList(bars, period, |bars.closes|);
      assert PaddedAdx(dxs, |bars.closes|, period, start + period - 1).None?;
    }
  }

  lemma TooFewDx(bars: Bars, period: nat, start: nat)
    requires bars.Complete() && 1 <= period && start < |bars.closes|
    requires forall j :: 0 <= j < start ==> !DiDefined(bars, period, j)
    requires !RangeNeverReturnsToZero(bars, period)
    ensures |DxList(bars, period, |bars.closes|)| < |bars.closes| - start
  {
    var gap :| 0 < gap < |bars.closes| && !KeepsDi(bars, period, gap);
    assert start <= gap - 1;
    DxCount(bars, period, start, gap, |bars.closes|);
  }

  /** Entries exist exactly from the bar that closes the first full window of DX values. */
  lemma AdxStartsAfterTwoWindows(bars: Bars, period: nat)
    requires bars.Complete() && 2 <= period && LongEnough(bars, period)
    requires forall j :: 0 <= j < |bars.closes| ==> bars.lows[j] <= bars.highs[j]
    requires DiDefined(bars, period, period - 1)
    ensures forall i :: 0 <= i < |bars.closes| ==> (AdxAt(bars, period, i).Some? <==> 2 * period - 2 <= i)
  {
    SmoothedRangeStaysPositive(bars, period);
    forall i | 0 <= i < |bars.closes|
      ensures AdxAt(bars, period, i).Some? <==> 2 * period - 2 <= i
    {
      AdxAligned(bars, period, period - 1, i);
    }
  }

  /**
   * With period 1 a flat bar between two bars with range misaligns the list: it shows an ADX but has
   * no directional indicators.
   */
  lemma PeriodOneMisaligns(bars: Bars)
    requires |bars.closes| == 3 && bars.Complete()
    requires TrueRange(bars, 0) != 0.0 && TrueRange(bars, 1) == 0.0 && TrueRange(bars, 2) != 0.0
    ensures AdxAt(bars, 1, 1).Some? && PlusDiAt(bars, 1, 1).None?
    ensures DiDefined(bars, 1, 0) && !RangeNeverReturnsToZero(bars, 1)
  {
    var trs := TrueRanges(bars);
    PeriodOneSum(trs, 0);
    PeriodOneSum(trs, 1);
    PeriodOneSum(trs, 2);
    assert DiDefined(bars, 1, 0) && !DiDefined(bars, 1, 1) && DiDefined(bars, 1, 2);
    assert |DxList(bars, 1, 1)| == 1;
    assert |DxList(bars, 1, 2)| == 1;
    assert |DxList(bars, 1, 3)| == 2;
    assert !KeepsDi(bars, 1, 1);
  }

  lemma FlatMiddle() returns (bars: Bars)
    ensures |bars.closes| == 3 && bars.Complete() && bars.Ordered()
    ensures TrueRange(bars, 0) != 0.0 && TrueRange(bars, 1) == 0.0 && TrueRange(bars, 2) != 0.0
  {
    bars := Bars([2.0, 1.0, 2.0], [1.0, 1.0, 1.0], [1.0, 1.0, 2.0]);
  }

  lemma MisalignedBars() returns (bars: Bars)
    ensures bars.Complete() && bars.Ordered() && |bars.closes| == 3
    ensures AdxAt(bars, 1, 1).Some? && PlusDiAt(bars, 1, 1).None?
  {
    bars := FlatMiddle();
    PeriodOneMisaligns(bars);
  }

  lemma PeriodOneSum(xs: seq<real>, i: nat)
    requires i < |xs|
    ensures WilderSum(xs, 1, i) == xs[i]
  {
    if i == 0 {
      assert xs[..1][..0] == [] && Sum(xs[..1]) == xs[0];
    }
  }

  // ---------- A pure trend attains the bound ----------

  /** Highs and lows both rise strictly from bar to bar. */
  ghost predicate PureUptrend(bars: Bars)
    requires bars.Complete()
  {
    forall i :: 1 <= i < |bars.closes| ==> bars.highs[i - 1] < bars.highs[i] && bars.lows[i - 1] < bars.lows[i]
  }

  lemma UptrendMoves(bars: Bars, i: nat)
    requires bars.Complete() && PureUptrend(bars) && i < |bars.closes|
    ensures MinusMove(bars, i) == 0.0
    ensures i > 0 ==> PlusMove(bars, i) > 0.0
  {
  }

  lemma UptrendSmoothedMoves(bars: Bars, period: nat, i: nat)
    requires bars.Complete() && bars.Ordered() && PureUptrend(bars) && 2 <= period && period - 1 <= i < |bars.closes|
    ensures WilderSum(MinusMoves(bars), period, i) == 0.0
    ensures WilderSum(PlusMoves(bars), period, i) > 0.0
    ensures DiDefined(bars, period, i)
  {
    forall j | 0 <= j < |bars.closes|
      ensures MinusMoves(bars)[j] == 0.0 && PlusMoves(bars)[j] >= 0.0 && (j > 0 ==> PlusMoves(bars)[j] > 0.0)
    {
      UptrendMoves(bars, j);
      MovesWithinRange(bars, j);
    }
    WilderSumConstant(MinusMoves(bars), period, i, 0.0);
    WilderSumSign(PlusMoves(bars), period, i);
    SmoothedMovesWithinRange(bars, period, i);
  }

  lemma {:induction false} WilderSumSign(xs: seq<real>, period: nat, i: nat)
    requires 2 <= period && period - 1 <= i < |xs|
    requires forall j :: 0 <= j < |xs| ==> xs[j] >= 0.0
    requires xs[1] > 0.0
    ensures WilderSum(xs, period, i) > 0.0
  {
    if i == period - 1 {
      SumPositive(xs[..period]);
      assert xs[..period][1] > 0.0;
    } else {
      WilderSumSign(xs, period, i - 1);
      var s, p := WilderSum(xs, period, i - 1), period as real;
      DivBelow(s, p);
    }
  }

  lemma DivBelow(s: real, p: real)
    requires s > 0.0 && p >= 2.0
    ensures s / p < s
  {
    var q := s / p;
    assert q * p == s;
    if q >= s {
      MulMono(s, q, p);
      MulStrict(1.0, p, s);
    }
  }

  /** +DI is nowhere so small that it is rounded to zero. */
  ghost predicate PlusDiShows(bars: Bars, period: nat)
    requires bars.Complete() && 1 <= period
  {
    forall i :: 0 <= i < |bars.closes| && DiDefined(bars, period, i) ==> PlusDi(bars, period, i) != 0.0
  }

  lemma {:induction false} UptrendDxList(bars: Bars, period: nat, n: nat)
    requires bars.Complete() && bars.Ordered() && PureUptrend(bars) && 2 <= period && n <= |bars.closes|
    requires PlusDiShows(bars, period)
    ensures DxList(bars, period, n) == seq(if n < period then 0 else n - period + 1, j => 100.0)
  {
    if n > 0 {
      UptrendDxList(bars, period, n - 1);
      UptrendDxNext(bars, period, n - 1);
    }
  }

  lemma UptrendDxNext(bars: Bars, period: nat, n: nat)
    requires bars.Complete() && bars.Ordered() && PureUptrend(bars) && 2 <= period && n < |bars.closes|
    requires PlusDiShows(bars, period)
    ensures DxList(bars, period, n + 1) == DxList(bars, period, n) + if period - 1 <= n then [100.0] else []
  {
    if period - 1 <= n {
      UptrendDx(bars, period, n);
    }
  }

  lemma UptrendDx(bars: Bars, period: nat, i: nat)
    requires bars.Complete() && bars.Ordered() && PureUptrend(bars) && 2 <= period && period - 1 <= i < |bars.closes|
    requires PlusDiShows(bars, period)
    ensures DiDefined(bars, period, i) && Dx(bars, period, i) == 100.0
  {
    UptrendSmoothedMoves(bars, period, i);
    DirectionalIndicatorsBounded(bars, period, i);
    NoShare(WilderSum(TrueRanges(bars), period, i));
    DxRange(PlusDi(bars, period, i), MinusDi(bars, period, i));
  }

  lemma NoShare(range: real)
    requires range != 0.0
    ensures DiOf(0.0, range) == 0.0
  {
    DivUnique(0.0, range, 0.0);
    Round2OfInt(0);
  }

  /** On a pure trend that shows in +DI every ADX entry equals 100 times the period. */
  lemma AdxBoundAttained(bars: Bars, period: nat, i: nat)
    requires bars.Complete() && bars.Ordered() && PureUptrend(bars) && 2 <= period && PlusDiShows(bars, period)
    requires LongEnough(bars, period) && 2 * period - 2 <= i < |bars.closes|
    ensures AdxAt(bars, period, i) == Some(100.0 * period as real)
  {
    UptrendDxList(bars, period, |bars.closes|);
    PaddedHundreds(DxList(bars, period, |bars.closes|), |bars.closes|, period, i);
  }

  lemma PaddedHundreds(dxs: seq<real>, n: nat, period: nat, i: nat)
    requires 2 <= period && period + 2 <= n && |dxs| == n - period + 1 && 2 * period - 2 <= i < n
    requires forall j :: 0 <= j < |dxs| ==> dxs[j] == 100.0
    ensures PaddedAdx(dxs, n, period, i) == Some(100.0 * period as real)
  {
    WilderSumConstant(dxs, period, i - (n - |dxs|), 100.0);
    Round2OfInt(100 * period);
  }

  // ---------- The documented range ----------

  /** Bars that climb by one from bar to bar, each from its close up to one above it. */
  function Rising(n: nat): (bars: Bars)
    ensures |bars.closes| == n && bars.Complete() && bars.Ordered() && PureUptrend(bars)
  {
    Bars(seq(n, i => i as real + 1.0), seq(n, i => i as real), seq(n, i => i as real))
  }

  lemma RisingMoves(n: nat, i: nat)
    requires i < n
    ensures PlusMoves(Rising(n))[i] == if i == 0 then 0.0 else 1.0
    ensures TrueRanges(Rising(n))[i] == if i == 0 then 1.0 else 2.0
  {
  }

  /** A third of the smoothed range at least is directional movement. */
  lemma {:induction false} RisingShare(n: nat, period: nat, i: nat)
    requires 2 <= period && period - 1 <= i < n
    ensures WilderSum(TrueRanges(Rising(n)), period, i) <= 3.0 * WilderSum(PlusMoves(Rising(n)), period, i)
  {
    var trs, moves := TrueRanges(Rising(n)), PlusMoves(Rising(n));
    if i == period - 1 {
      RisingSums(n, period);
    } else {
      RisingShare(n, period, i - 1);
      RisingMoves(n, i);
      ThirdKept(WilderSum(trs, period, i - 1), WilderSum(moves, period, i - 1), trs[i], moves[i], period);
    }
  }

  lemma ThirdKept(s: real, t: real, x: real, y: real, period: nat)
    requires 1 <= period && s <= 3.0 * t && x <= 3.0 * y
    ensures WilderSumStep(s, x, period) <= 3.0 * WilderSumStep(t, y, period)
  {
    SumStepMonotone(s, 3.0 * t, x, 3.0 * y, period);
    MulDiv(3.0, t, period as real);
  }

  lemma {:induction false} RisingSums(n: nat, k: nat)
    requires 1 <= k <= n
    ensures Sum(PlusMoves(Rising(n))[..k]) == k as real - 1.0
    ensures Sum(TrueRanges(Rising(n))[..k]) == 2.0 * k as real - 1.0
  {
    var trs, moves := TrueRanges(Rising(n)), PlusMoves(Rising(n));
    RisingMoves(n, k - 1);
    assert trs[..k][..k - 1] == trs[..k - 1] && moves[..k][..k - 1] == moves[..k - 1];
    if k > 1 {
      RisingSums(n, k - 1);
    } else {
      assert trs[..0] == [] && moves[..0] == [];
    }
  }

  lemma RisingShows(n: nat, period: nat)
    requires 2 <= period
    ensures PlusDiShows(Rising(n), period)
  {
    var bars := Rising(n);
    forall i | 0 <= i < n && DiDefined(bars, period, i) ensures PlusDi(bars, period, i) != 0.0 {
      RisingShare(n, period, i);
      SmoothedMovesWithinRange(bars, period, i);
      ThirdShows(WilderSum(PlusMoves(bars), period, i), WilderSum(TrueRanges(bars), period, i));
    }
  }

  lemma ThirdShows(move: real, range: real)
    requires 0.0 <= move <= range <= 3.0 * move && range != 0.0
    ensures DiOf(move, range) >= 1.0
  {
    var q := Share(move, range);
    assert q * range == 100.0 * move;
    if q < 1.0 {
      MulStrict(q, 1.0, range);
    }
    Round2Monotone(1.0, q);
    Round2OfInt(1);
  }

  ghost predicate InDocumentedRange(bars: Bars, period: nat, i: nat)
    requires bars.Complete() && 1 <= period && i < |bars.closes|
  {
    AdxAt(bars, period, i).Some? ==> 0.0 <= AdxAt(bars, period, i).value <= 100.0
  }

  /** ADX keeps to the documented range of 0 to 100 on all well-formed bars if and only if the period is 1. */
  lemma DocumentedRangeExactly(period: nat)
    requires 1 <= period
    ensures (forall bars: Bars, i: nat :: bars.Complete() && bars.Ordered() && i < |bars.closes| ==>
               InDocumentedRange(bars, period, i))
       <==> period == 1
  {
    if period == 1 {
      forall bars: Bars, i: nat | bars.Complete() && bars.Ordered() && i < |bars.closes|
        ensures InDocumentedRange(bars, period, i)
      {
        if AdxAt(bars, period, i).Some? {
          AdxBounded(bars, period, i);
        }
      }
    } else {
      var bars := Rising(2 * period);
      RisingShows(2 * period, period);
      AdxBoundAttained(bars, period, 2 * period - 1);
      assert !InDocumentedRange(bars, period, 2 * period - 1);
    }
  }

  /** Wilder's mean of the DX values behind an ADX entry. */
  function MeanDx(bars: Bars, period: nat, i: nat): real
    requires bars.Complete() && 1 <= period && i < |bars.closes| && AdxAt(bars, period, i).Some?
  {
    var dxs := DxList(bars, period, |bars.closes|);
    WilderMean(dxs, period, i - (|bars.closes| - |dxs|))
  }

  /** An ADX entry is the rounded sum; the mean of DX, taken `period` times, is that sum. */
  lemma AdxIsScaledMean(bars: Bars, period: nat, i: nat) returns (s: real)
    requires bars.Complete() && bars.Ordered() && 1 <= period && i < |bars.closes|
    requires AdxAt(bars, period, i).Some?
    ensures AdxAt(bars, period, i) == Some(Round2(s)) && Times(s, MeanDx(bars, period, i), period)
    ensures 0.0 <= MeanDx(bars, period, i) <= 100.0
  {
    var n := |bars.closes|;
    var dxs := DxList(bars, period, n);
    var j := i - (n - |dxs|);
    s := WilderSum(dxs, period, j);
    WilderSumIsScaledMean(dxs, period, j);
    DxListBounded(bars, period, n);
    WilderSumWithin(dxs, period, j, 100.0);
    UnscaledRange(s, WilderMean(dxs, period, j), period);
  }

  /**
   * What a whole-number threshold on ADX asks of the mean of DX, which is the index that keeps to the
   * documented range: a period-th of it, within rounding. With period 14 the shipped threshold of 25
   * is passed from a mean of 24.995 / 14, which is below 1.8, on.
   */
  lemma ThresholdOnMean(bars: Bars, period: nat, i: nat, threshold: nat)
    requires bars.Complete() && bars.Ordered() && 1 <= period && i < |bars.closes|
    requires AdxAt(bars, period, i).Some?
    ensures 0.0 <= MeanDx(bars, period, i) <= 100.0
    ensures AdxAt(bars, period, i).value >= threshold as real
       <==> MeanDx(bars, period, i) >= (threshold as real - 0.005) / period as real
    ensures AdxAt(bars, period, i).value <= threshold as real
       <==> MeanDx(bars, period, i) <= (threshold as real + 0.005) / period as real
  {
    var s := AdxIsScaledMean(bars, period, i);
    ThresholdOnScaled(s, MeanDx(bars, period, i), period, threshold);
  }

  lemma ThresholdOnScaled(s: real, mean: real, period: nat, threshold: nat)
    requires 1 <= period && Times(s, mean, period)
    ensures Round2(s) >= threshold as real <==> mean >= (threshold as real - 0.005) / period as real
    ensures Round2(s) <= threshold as real <==> mean <= (threshold as real + 0.005) / period as real
  {
    Round2Compares(s, threshold);
    ScaledCompares(s, mean, period as real, threshold as real - 0.005);
    ScaledCompares(s, mean, period as real, threshold as real + 0.005);
  }

  lemma ScaledCompares(s: real, mean: real, p: real, t: real)
    requires p > 0.0 && s == mean * p
    ensures s >= t <==> mean >= t / p
    ensures s <= t <==> mean <= t / p
  {
    var q := t / p;
    assert q * p == t;
    if mean < q {
      MulStrict(mean, q, p);
    } else if mean > q {
      MulStrict(q, mean, p);
    }
  }

  lemma UnscaledRange(s: real, mean: real, period: nat)
    requires 1 <= period && Times(s, mean, period) && 0.0 <= s <= 100.0 * period as real
    ensures 0.0 <= mean <= 100.0
  {
    DivUnique(s, period as real, mean);
    DivBound(s, period as real, 100.0);
    DivSign(s, period as real);
  }

  // ---------- Mirroring ----------

  /** Upside down: highs become mirrored lows and lows mirrored highs. */
  ghost predicate BarsMirror(a: Bars, b: Bars, level: real) {
    Mirror(a.closes, b.closes, level) && Mirror(a.lows, b.highs, level) && Mirror(a.highs, b.lows, level)
  }

  lemma BarMirrors(a: Bars, b: Bars, level: real, i: nat)
    requires BarsMirror(a, b, level) && a.Complete() && i < |a.closes|
    ensures b.Complete()
    ensures TrueRange(b, i) == TrueRange(a, i)
    ensures PlusMove(b, i) == MinusMove(a, i)
    ensures MinusMove(b, i) == PlusMove(a, i)
  {
  }

  lemma MovesMirror(a: Bars, b: Bars, level: real)
    requires BarsMirror(a, b, level) && a.Complete()
    ensures b.Complete()
    ensures TrueRanges(b) == TrueRanges(a)
    ensures PlusMoves(b) == MinusMoves(a)
    ensures MinusMoves(b) == PlusMoves(a)
    ensures AtrRanges(b) == AtrRanges(a)
  {
    forall i | 0 <= i < |a.closes|
      ensures TrueRange(b, i) == TrueRange(a, i)
      ensures PlusMove(b, i) == MinusMove(a, i) && MinusMove(b, i) == PlusMove(a, i)
    {
      BarMirrors(a, b, level, i);
    }
  }

  /** Upside down, +DI and -DI change places. */
  lemma DiMirrors(a: Bars, b: Bars, level: real, period: nat, i: nat)
    requires BarsMirror(a, b, level) && a.Complete() && 1 <= period && i < |a.closes|
    ensures b.Complete()
    ensures DiDefined(b, period, i) <==> DiDefined(a, period, i)
    ensures PlusDiAt(b, period, i) == MinusDiAt(a, period, i)
    ensures MinusDiAt(b, period, i) == PlusDiAt(a, period, i)
    ensures DiDefined(a, period, i) ==> Dx(b, period, i) == Dx(a, period, i)
  {
    MovesMirror(a, b, level);
  }

  lemma {:induction false} DxListMirrors(a: Bars, b: Bars, level: real, period: nat, n: nat)
    requires BarsMirror(a, b, level) && a.Complete() && 1 <= period && n <= |a.closes|
    ensures b.Complete()
    ensures DxList(b, period, n) == DxList(a, period, n)
  {
    if n > 0 {
      DxListMirrors(a, b, level, period, n - 1);
      DiMirrors(a, b, level, period, n - 1);
    } else {
      MovesMirror(a, b, level);
    }
  }

  /** Trend strength does not depend on the direction of the trend. */
  lemma AdxMirrors(a: Bars, b: Bars, level: real, period: nat, i: nat)
    requires BarsMirror(a, b, level) && a.Complete() && 1 <= period && i < |a.closes|
    ensures b.Complete()
    ensures AdxAt(b, period, i) == AdxAt(a, period, i)
  {
    DxListMirrors(a, b, level, period, |a.closes|);
  }

  lemma AtrMirrors(a: Bars, b: Bars, level: real, period: nat, i: nat)
    requires BarsMirror(a, b, level) && a.SameLength() && 1 <= period && i < |a.closes|
    ensures b.SameLength()
    ensures AtrAt(b, period, i) == AtrAt(a, period, i)
  {
    MovesMirror(a, b, level);
  }
}
