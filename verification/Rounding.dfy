/**
 * The rounding of backend/engines/indicators.py: to the nearest multiple of a hundredth or of a
 * ten-thousandth, with halves going to the even neighbour.
 */
module Rounding {
  /** The nearest integer; a half goes to the even one. */
  function Nearest(x: real): int {
    var n := x.Floor;
    var rest := x - n as real;
    if rest < 0.5 || (rest == 0.5 && n % 2 == 0) then n else n + 1
  }

  /** `round(x, 2)` */
  function Round2(x: real): real {
    Nearest(x * 100.0) as real / 100.0
  }

  /** `round(x, 4)` */
  function Round4(x: real): real {
    Nearest(x * 10000.0) as real / 10000.0
  }

  lemma NearestBetween(x: real)
    ensures x - 0.5 <= Nearest(x) as real <= x + 0.5
  {
  }

  lemma NearestMonotone(x: real, y: real)
    requires x <= y
    ensures Nearest(x) <= Nearest(y)
  {
    NearestBetween(x);
    NearestBetween(y);
    assert x.Floor <= y.Floor;
  }

  lemma NearestOfInt(n: int)
    ensures Nearest(n as real) == n
  {
  }

  /** Reflection at an even integer commutes with rounding: halves on both sides go to even neighbours. */
  lemma NearestReflects(x: real, k: int)
    ensures Nearest((2 * k) as real - x) == 2 * k - Nearest(x)
  {
    var n := x.Floor;
    var rest := x - n as real;
    var y := (2 * k) as real - x;
    if rest == 0.0 {
      assert y.Floor == 2 * k - n;
    } else {
      assert y.Floor == 2 * k - n - 1;
      assert y - y.Floor as real == 1.0 - rest;
      assert (2 * k - n - 1) % 2 == (n + 1) % 2;
    }
  }

  // ---------- Hundredths ----------

  lemma Round2Monotone(x: real, y: real)
    requires x <= y
    ensures Round2(x) <= Round2(y)
  {
    NearestMonotone(x * 100.0, y * 100.0);
  }

  lemma Round2OfInt(n: int)
    ensures Round2(n as real) == n as real
  {
    NearestOfInt(100 * n);
  }

  lemma Round2Reflects(x: real)
    ensures Round2(100.0 - x) == 100.0 - Round2(x)
  {
    NearestReflects(x * 100.0, 5000);
    assert (100.0 - x) * 100.0 == 10000.0 - x * 100.0;
  }

  /** Within half a hundredth of the end of the scale a percentage is rounded to the end. */
  lemma Round2Ends(x: real)
    requires 0.0 <= x <= 100.0
    ensures 0.0 <= Round2(x) <= 100.0
    ensures Round2(x) == 0.0 <==> x <= 0.005
    ensures Round2(x) == 100.0 <==> x >= 99.995
  {
  }

  /** Comparing a rounded value with a whole number is comparing the exact one half a hundredth away. */
  lemma Round2Compares(x: real, n: int)
    ensures Round2(x) >= n as real <==> x >= n as real - 0.005
    ensures Round2(x) <= n as real <==> x <= n as real + 0.005
  {
    NearestCompares(x * 100.0, 50 * n);
  }

  lemma NearestCompares(x: real, k: int)
    ensures Nearest(x) >= 2 * k <==> x >= (2 * k) as real - 0.5
    ensures Nearest(x) <= 2 * k <==> x <= (2 * k) as real + 0.5
  {
  }

  // ---------- Ten-thousandths ----------

  lemma Round4Monotone(x: real, y: real)
    requires x <= y
    ensures Round4(x) <= Round4(y)
  {
    NearestMonotone(x * 10000.0, y * 10000.0);
  }

  /** A whole number of ten-thousandths; prices quoted to four decimals are. */
  predicate IsTick(x: real) {
    x * 10000.0 == (x * 10000.0).Floor as real
  }

  lemma Round4OfTick(x: real)
    requires IsTick(x)
    ensures Round4(x) == x
  {
    NearestOfInt((x * 10000.0).Floor);
  }

  /** An even number of ten-thousandths: zero, and every level with at most three decimals. */
  predicate IsEvenTick(x: real) {
    x * 5000.0 == (x * 5000.0).Floor as real
  }

  lemma Round4Reflects(x: real, level: real)
    requires IsEvenTick(level)
    ensures Round4(level - x) == level - Round4(x)
  {
    var k := (level * 5000.0).Floor;
    NearestReflects(x * 10000.0, k);
    assert (level - x) * 10000.0 == (2 * k) as real - x * 10000.0;
  }

  predicate ReflectsAt(x: real, level: real) {
    Round4(level - x) == level - Round4(x)
  }

  /** Reflection commutes with rounding at even numbers of ticks and nowhere else. */
  lemma Round4ReflectsExactly(level: real)
    ensures (forall x :: ReflectsAt(x, level)) <==> IsEvenTick(level)
  {
    if IsEvenTick(level) {
      forall x ensures ReflectsAt(x, level) {
        Round4Reflects(x, level);
      }
    }
    if forall x :: ReflectsAt(x, level) {
      assert ReflectsAt(level, level) && ReflectsAt(0.00005, level);
      OnlyEvenTicks(level);
    }
  }

  lemma OnlyEvenTicks(level: real)
    requires ReflectsAt(level, level) && ReflectsAt(0.00005, level)
    ensures IsEvenTick(level)
  {
    var k := Nearest(level * 10000.0);
    assert level == Round4(level) by {
      NearestOfInt(0);
    }
    assert level * 10000.0 == k as real;
    HalfTick(level, k);
    assert k % 2 == 0;
    EvenTick(level, k);
  }

  lemma EvenTick(level: real, k: int)
    requires level * 10000.0 == k as real && k % 2 == 0
    ensures IsEvenTick(level)
  {
    var h := k / 2;
    assert k == 2 * h;
    assert level * 5000.0 == h as real;
  }

  lemma HalfTick(level: real, k: int)
    requires level * 10000.0 == k as real
    ensures Round4(0.00005) == 0.0
    ensures k % 2 == 1 ==> Round4(level - 0.00005) == level - 0.0001
  {
    var y := (level - 0.00005) * 10000.0;
    assert y == k as real - 0.5;
    assert y.Floor == k - 1;
  }

  lemma Round4Odd(x: real)
    ensures Round4(0.0 - x) == 0.0 - Round4(x)
  {
    Round4Reflects(x, 0.0);
  }

  /** Rounding does not leave an interval between ticks. */
  lemma Round4Within(x: real, lo: real, hi: real)
    requires IsTick(lo) && IsTick(hi) && lo <= x <= hi
    ensures lo <= Round4(x) <= hi
  {
    Round4Monotone(lo, x);
    Round4Monotone(x, hi);
    Round4OfTick(lo);
    Round4OfTick(hi);
  }
}
